# Used-car crawler: planning, extraction and checkpointing, modelled in Dafny

This project models the decision logic of `new.py`, a crawler that collects used-car listings
from carwale.com one city at a time. Its results go into a CSV file, and that file is also the
crawler's checkpoint. The browser, the HTML parser, the file system and the thread pool are
replaced by abstract inputs. What remains is pure functions over sequences, sets and maps:

- **Cities** (`get_cities`). Each line of the reference list gives a city key: the text before
  the first comma, stripped, lower-cased, with every character outside `[a-zA-Z]` removed.
  - The keys fill a dict that remembers first-insertion order and the last label written.
  - The plan has two parts. First come the hard-coded priority cities that are in the dict and
    not yet scraped. Then come the other dict keys that are not yet scraped, in dict order.
- **Store** (`save_to_csv`, `get_scraped_cities_from_csv`). The file is a sequence of lines.
  - Each save appends rows and writes the 13-column header only into an empty file.
  - Reading the file back gives the scraped cities: `row["City"].strip().lower()` for every
    row.
- **Details** (`get_car_details`, `extract_text`). A loaded detail page is a lookup from field
  name to optional element text. The record holds ten fields: each is the stripped text, or
  `"Not Available"` when its lookup failed.
- **Listings** (`get_car_list` after parsing). The car cards are filter-mapped to
  (name, absolute URL) pairs. A card whose `<a>` has no `href` raises `KeyError`, which fails
  the whole city.
- **Batching and the run** (`scrape_and_save`).
  - The results of one city are consumed in order, and the buffer is saved every 20 rows
    (`SAVE_INTERVAL`). A non-empty remainder is saved at the end.
  - A city whose discovery raises is skipped.
  - A detail page that raises ends the whole run. The rows buffered since the last save are
    then lost.
  - The run is a fold over the plan, with the file as its state.

Modules, each in its own file:

| file | module |
|---|---|
| `wrappers.dfy` | `Option` and `Result` |
| `seqs.dfy` | filtering, positions, flattening |
| `text.dfy` | ASCII `split(',')[0]`, `strip`, `lower`, `capitalize` |
| `cities.dfy` | normalisation, the city dict, the plan |
| `details.dfy` | the detail record |
| `listings.dfy` | listing extraction |
| `store.dfy` | rows, the CSV file, read-back |
| `batching.dfy` | the save schedule, as a function and as the source's loop |
| `crawl.dfy` | the per-city crawl, the run, the next run's plan |

Behaviours of `new.py` worth knowing:

- A blank reference line yields the key `""`. That key is planned like any other, not skipped.
- The plan holds normalised keys, and the listing URL is built from the key, not the raw label.
  The labels stored in the dict are never used.
- A card with a heading and a link but no `href` fails the whole city; it is not skipped.
- A city counts as scraped as soon as one of its rows is in the file. A city whose run was cut
  short after one or more saves is never planned again, even though some of its cars were
  never saved (`Crawl.NextPlan`).
- Every call of `get_car_details` opens its own browser, so two listing entries with the same URL
  are two separate visits. The model names a visit by city, listing position and URL
  (`Crawl.Visit`), so the two can fare differently.
- `DictWriter` is built with its default `extrasaction='raise'`. A row with a key outside the 13
  columns would raise `ValueError`. The rows the crawler builds never have one
  (`Store.CarRowColumns`).

## Model

| member | source | states |
|---|---|---|
| Text.BeforeComma | new.py:114 | `split(',')[0]` is the longest comma-free prefix: it is a prefix, holds no comma, and is followed by a comma unless it is the whole line |
| Text.StripSlice | new.py:114 | `strip()` returns a contiguous slice of its input, and everything removed on either side is whitespace |
| Text.StripWithin | new.py:114 | `strip()` never lengthens its input and adds no character to it |
| Text.Strip | new.py:45 | the result of `strip()` neither starts nor ends with whitespace |
| Text.CapitalizeReadBack | new.py:153 | for every key of lower-case letters, `lower(strip(capitalize(k))) == k`: the `City` cell written at new.py:153 reads back at new.py:95 as the key itself |
| Cities.RawLabel | new.py:114 | `city_raw` is no longer than its line, holds no comma, and neither starts nor ends with whitespace (details in `Text.BeforeComma`, `Text.StripSlice`, `Text.StripWithin`) |
| Cities.CityKey | new.py:114-115 | the key of a line is the letters of its raw label, lower-cased, and consists of `a`-`z` only |
| Cities.CityKeyOfKey | new.py:114-115 | normalising a string that is already a key returns it unchanged |
| Cities.CityKeyIdempotent | new.py:114-115 | normalisation is idempotent |
| Cities.CityKeyIgnoresStrip | new.py:114-115 | the key depends only on the text before the first comma; the strip never changes it |
| Cities.CityKeyOfTwoWords | new.py:114-115 | two words joined and surrounded by any letter-free, comma-free separators give the two words lower-cased and concatenated |
| Cities.NewDelhiSpaced | new.py:114-115 | `"New Delhi"` normalises to `"newdelhi"` |
| Cities.NewDelhiHyphenated | new.py:114-115 | `"new-delhi "` normalises to `"newdelhi"` |
| Cities.Assign | new.py:116 | dict assignment: the key now maps to the new label, other entries are untouched, old keys keep their positions, a new key goes last |
| Cities.BuildCityMap | new.py:112-116 | the dict is well formed and its keys are exactly the keys of the lines |
| Cities.CityMapOrder | new.py:112-116 | dict order is first-occurrence order of the keys among the lines, however often a key is overwritten |
| Cities.CityMapLabel | new.py:116 | each key's label is the raw label of the last line with that key |
| Cities.Plan | new.py:121-124 | the plan has no duplicates, and a key is in it exactly when it is in the dict and not yet scraped; priority entries absent from the dict are skipped |
| Cities.PlanOrder | new.py:121-124 | priority cities come first and in priority order; the rest follow in dict (first-insertion) order |
| Cities.GetCities | new.py:102-124 | the plan is duplicate-free and holds exactly the reference-list keys not yet scraped |
| Details.ExtractText | new.py:43-47 | a failed lookup gives `"Not Available"`; a found element gives its stripped text |
| Details.CarDetails | new.py:49-58 | the record's fields are exactly the ten detail names, each the placeholder or the stripped text of its own lookup |
| Details.TenFields | new.py:49-58 | the record has exactly ten fields |
| Details.FailureIsLocal | new.py:43-58 | one field's lookup failing sets that field to `"Not Available"` and leaves every other field unchanged |
| Listings.ToCar | new.py:80-82 | a car's name is its card's heading text stripped (so it neither starts nor ends with whitespace), and its URL is the origin followed by the card's `href`, which can be read back from the URL |
| Listings.CarList | new.py:75-86 | a page never yields more cars than cards, and the only way it fails is a missing `href` |
| Listings.CarListSpec | new.py:75-86 | a page fails exactly when some complete card lacks an `href`; otherwise its cars are its complete cards converted, in page order (filter, then map) |
| Listings.CarListFails | new.py:78-84 | the `KeyError` for a missing `href` escapes the `except AttributeError`: one such card fails the page |
| Listings.CarListCars | new.py:75-86 | a page that succeeds has no broken card, and its cars equal the filter-map reference definition |
| Listings.ListedCarsCons | new.py:75-82 | the filter-map reference definition, one card at a time: a complete first card contributes its car first, an incomplete one contributes nothing |
| Listings.UrlsAreAbsolute | new.py:81 | every car URL starts with `https://www.carwale.com` |
| Listings.CarListOrder | new.py:75-82 | each car comes from a complete card at strictly increasing positions, named by the stripped heading, with URL = origin + href |
| Store.Written | new.py:130-133 | a row the writer accepts (no key outside the 13 columns) is written as 13 cells in column order; the first is the `City` value, and each column the row has gets its value |
| Store.WrittenBlank | new.py:130-133 | a column the row lacks is written as the empty string (`restval`) |
| Store.SaveToCsv | new.py:127-133 | an append keeps every existing line, adds the header only to an empty file, then one data line per row in order |
| Store.SaveKeepsWellFormed | new.py:131-132 | appending to an empty or well-formed file gives a non-empty well-formed file |
| Store.HeaderOnce | new.py:128-133 | after one or more saves from an empty file, the 13-column header is the first line and every other line is data |
| Store.HeaderIffEmpty | new.py:131-132 | an append writes a header line exactly when the file was empty |
| Store.ScrapedCities | new.py:89-99 | a missing or empty file yields no scraped cities |
| Store.ScrapedAfterSave | new.py:89-99 | after an append, the cities read back are the old ones plus the read-back `City` cells of the new rows |
| Store.RowCitiesOfCity | new.py:95 | non-empty rows written for a key read back as exactly that key |
| Store.ScrapedAfterSaves | new.py:95 | saving non-empty batches for one city marks that city and no other as scraped |
| Store.CarRow | new.py:153 | a car row has `City` = `city.capitalize()`, `Car Name` and `URL` from the listing entry, and every detail field equal to the detail record's; the detail record cannot overwrite the first three (see `Store.CarRowColumns`) |
| Store.CarRowColumns | new.py:130-133 | a car row has exactly the 13 file columns, so the writer neither fills a blank nor rejects an extra key |
| Batching.ChunksSpec | new.py:148-161 | the groups, joined, are the input; none is empty or longer than 20; all but the last have exactly 20 |
| Batching.ChunksUnique | new.py:148-161 | any grouping with those properties is the grouping: the batch shape is fully determined |
| Batching.FortyFiveRows | new.py:156-161 | 45 results give saves of 20, 20 and 5 rows |
| Batching.NoRows | new.py:160 | no results give no save |
| Batching.Schedule | new.py:148-161 | a city's crawl completes exactly when no detail result failed |
| Batching.FlushSchedule | new.py:148-161 | the source's loop (1-based `index`, save when `index % 20 == 0`, save the remainder) yields exactly `Schedule`: all rows in groups of 20 when nothing fails, only the whole groups before the first failure otherwise |
| Batching.ScheduleBatches | new.py:156-161 | every save holds between 1 and 20 rows, each a successful result |
| Batching.ScheduleRows | new.py:150-161 | joined, the saves are all rows in result order when nothing fails; after a failure they are a prefix of the rows before it, short by fewer than 20, and every save made is a full 20 |
| Batching.ScheduleEmpty | new.py:160-161 | a city with no cars saves nothing and completes |
| Crawl.BaseUrl | new.py:141 | the listing URL is the fixed prefix, the city key and a closing `/`, so the key can be read back from it |
| Crawl.BaseUrlInjective | new.py:141 | distinct cities open distinct listing pages |
| Crawl.GetCarList | new.py:142-146 | a listing page that does not load is an exception; a loaded page fails exactly when some complete card lacks an `href`, and otherwise yields the filter-map of its cards (see `Listings.CarListSpec`) |
| Crawl.ResultOf | new.py:150-153 | a car's result is missing exactly when its visit's detail page fails; otherwise it is the car's row built from that page, which the writer accepts and which names the city as `city.capitalize()` |
| Crawl.CrawlCity | new.py:139-161 | a city is skipped exactly when its discovery raises; a skipped city saves nothing; every save is 1-20 rows for that city, each accepted by the writer |
| Crawl.CrawlCityAborted | new.py:142-161 | a city's crawl ends the run exactly when its cars were listed and the detail page of one of them failed |
| Crawl.CrawlCityRows | new.py:148-161 | a city crawled to its end saves exactly one row per listed car, in listing order: row `j` is built from car `j`'s name and URL and from the page its own visit loaded |
| Crawl.Run | new.py:139-161 | the run never removes a line from the file, and every save it makes is accepted by the writer (its saves are pinned by `Crawl.RunSavesExact`, the file by `Crawl.RunStore`, the stop by `Crawl.RunAborted`) |
| Crawl.Reached | new.py:139-161 | a run reaches the cities of the plan up to and including the first whose crawl raised, or all of them; none before that one raised |
| Crawl.RunSavesExact | new.py:139-161 | the saves of a run are exactly the batches of every city it reaches, in plan order and batch order: nothing a city's crawl saves is dropped, split or merged |
| Crawl.RunAborted | new.py:139-161 | a run is cut short exactly when the crawl of some planned city raises out of the loop |
| Crawl.RunStore | new.py:139-161 | the file after a run is the file before it with the run's saves appended in order |
| Crawl.RunSaves | new.py:148-161 | every save of a run is for a planned city and holds 1-20 rows naming that city |
| Crawl.RunOrder | new.py:139 | cities are crawled in plan order: all saves of an earlier city precede those of a later one |
| Crawl.RunSavedCities | new.py:142-161 | only planned cities whose crawl saves something get saves; in a run not cut short, every such city does |
| Crawl.ScrapeAndSave | new.py:137-139 | planning then running keeps every line of the file, and every save is for a city of the reference list that the file did not already name |
| Crawl.SavesUnscraped | new.py:118-161 | the saves of a run from the computed plan are for reference-list cities the file did not name |
| Crawl.RunScraped | new.py:89-99 | after a run the file is well formed, and the scraped cities are the old ones plus the cities that had a save |
| Crawl.CityScraped | new.py:153 | saving one city's batches adds that city to the scraped cities when anything was saved |
| Crawl.PlanKeys | new.py:115 | every planned city is a key of lower-case letters |
| Crawl.NextPlan | new.py:118-124 | the next run's plan is this run's plan minus the cities that had a save |
| Crawl.NothingFoundReplanned | new.py:142-146 | a city whose discovery raises, or which lists no cars, gets no save and is planned again next run |
| Crawl.RunHeaderOnce | new.py:131-132 | a run from an empty file that saves anything leaves the header first and data everywhere else |
| Crawl.NoSavesNoChange | new.py:144-146 | a run without saves leaves the file unchanged |

## Left out

- Browser I/O is left out: the Selenium driver, `driver.get`, the sleeps and `driver.quit`
  (new.py:17-23, 38-40, 60, 65-70). Loading a page is an input that either yields the page or
  fails.
- The scroll-height polling loop (new.py:26-34) is left out. It depends on the live page, and
  nothing guarantees that it terminates. The listing page is the parsed result after it.
- XPath and BeautifulSoup selection (new.py:49-58, 73, 77-78) are foreign libraries. Their
  results are inputs: a field lookup per name, and the first `<h3>` and `<a>` per card.
- The `except AttributeError` branch (new.py:83-84) is never taken in the model. With the
  elements taken as inputs, nothing in the loop body raises `AttributeError`.
- File I/O is left out: reading `car_list.txt` (new.py:109-110), CSV quoting, encodings and
  newline handling. The reference list is a sequence of lines, and the CSV file is a sequence
  of header and data lines of cells.
- Store.ScrapedCities reads the city from the first cell of every line after the first. That
  is where the header written at new.py:130 puts `City`. A file with some other header is not
  modelled.
- `ThreadPoolExecutor` concurrency (new.py:149-150) is not modelled. `executor.map` is taken as
  a sequential map that preserves order, and a failed detail page surfaces when its result is
  consumed.
- Unicode case mapping and whitespace are not modelled. `lower`, `capitalize` and `strip` are
  modelled on ASCII, with Python's ASCII whitespace set.
- The `print` calls are left out.
- A failure while writing the file is not modelled: a save always succeeds.
- Store.Written, Store.DataLines and Store.SaveToCsv require every row to fit the 13 columns. A
  row with an extra key makes `DictWriter` raise `ValueError` (after the header, if any, was
  written); that error path is not modelled. No row the crawler builds has an extra key
  (`Store.CarRowColumns`), so `scrape_and_save` never takes it.
- Cities.Plan and its lemmas take the priority list as a parameter and require it to be
  duplicate-free. The list in the source is (`Cities.PriorityDistinct`).
