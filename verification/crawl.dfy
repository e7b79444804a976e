/** The main loop (`scrape_and_save`, new.py): for each planned city, discover its listings,
    fetch every car's details in listing order, and save the rows in batches. The run is a fold
    over the plan with the results file as its state. */
module Crawl {
  import opened Wrappers
  import opened Seqs
  import opened Text
  import opened Cities
  import opened Details
  import opened Listings
  import opened Store
  import opened Batching

  /** One call of `get_car_details`: the city being crawled, the car's position in the city's
      listing, and the page's URL. Every call starts its own browser, so two visits of the same
      URL can fare differently. */
  datatype Visit = Visit(city: string, position: nat, url: string)

  /** The web as the crawler sees it. `listingPage(url)` is the parsed listing page, or `None`
      when opening it raised; `detailPage(visit)` is the detail page the visit loaded, or `None`
      when starting the browser or loading the page raised. */
  datatype Web = Web(listingPage: string -> Option<seq<Element>>, detailPage: Visit -> Option<Lookup>)

  const ListingPrefix := "https://www.carwale.com/used/"

  /** `base_url`: the listing page of a city key. The key sits between the fixed prefix and a
      closing slash, so it can be read back from the URL. */
  function BaseUrl(city: string): (url: string)
    ensures |url| == |ListingPrefix| + |city| + 1
    ensures url[..|ListingPrefix|] == ListingPrefix && url[|ListingPrefix|..|url| - 1] == city
    ensures url[|url| - 1] == '/'
  {
    ListingPrefix + city + "/"
  }

  /** Distinct cities open distinct listing pages. */
  lemma {:induction false} BaseUrlInjective(a: string, b: string)
    requires BaseUrl(a) == BaseUrl(b)
    ensures a == b
  {
    var url := BaseUrl(a);
    assert a == url[|ListingPrefix|..|url| - 1];
  }

  /** `get_car_list(base_url)` as the loop of new.py:142-146 sees it: a page that does not load
      is an exception; a loaded page fails exactly when a complete card lacks an `href`, and
      otherwise yields its complete cards, converted, in page order. */
  function GetCarList(web: Web, city: string): (r: Result<seq<Car>, ListingError>)
    ensures web.listingPage(BaseUrl(city)).None? ==> r == Err(PageLoadFailure)
    ensures web.listingPage(BaseUrl(city)).Some? ==>
              var cards := web.listingPage(BaseUrl(city)).value;
              && (r.Err? <==> exists i :: 0 <= i < |cards| && Broken(cards[i]))
              && (r.Ok? ==> r.value == ListedCars(cards))
  {
    match web.listingPage(BaseUrl(city))
    case None => Err(PageLoadFailure)
    case Some(cards) => CarListSpec(cards); CarList(cards)
  }

  /** The row of the car at `position` in the city's listing (`car_data`), or `None` when
      `get_car_details` raised for it. A row, when there is one, is one the writer accepts and
      names the city as `city.capitalize()`. */
  function ResultOf(web: Web, city: string, position: nat, car: Car): (r: Option<Row>)
    ensures r.None? <==> web.detailPage(Visit(city, position, car.url)).None?
    ensures r.Some? ==> r.value == CarRow(city, car, web.detailPage(Visit(city, position, car.url)).value)
    ensures r.Some? ==> Fits(r.value) && CityCell(r.value) == Capitalize(city)
  {
    match web.detailPage(Visit(city, position, car.url))
    case None => None
    case Some(page) => CarRowColumns(city, car, page); Some(CarRow(city, car, page))
  }

  /** `executor.map(...)` taken in order: one result per car, in listing order. */
  function Results(web: Web, city: string, cars: seq<Car>): (rs: seq<Option<Row>>)
    ensures |rs| == |cars|
    ensures forall j :: 0 <= j < |rs| ==> rs[j] == ResultOf(web, city, j, cars[j])
  {
    seq(|cars|, j requires 0 <= j < |cars| => ResultOf(web, city, j, cars[j]))
  }

  /** How the crawl of a city ended: its discovery raised (`continue`), it went through all its
      cars, or a detail page raised, which ends the whole run. */
  datatype Outcome = Skipped | Done | Aborted

  /** What crawling one city amounts to: the batches it saves, in order, and how it ended. */
  datatype CityCrawl = CityCrawl(batches: seq<seq<Row>>, outcome: Outcome)

  /** A skipped city saves nothing; every save holds between one and `SAVE_INTERVAL` rows, all
      naming the city and all accepted by the writer. */
  ghost predicate Sound(city: string, c: CityCrawl) {
    && (c.outcome == Skipped ==> c.batches == [])
    && BatchesFit(c.batches)
    && forall i :: 0 <= i < |c.batches| ==> 0 < |c.batches[i]| <= SaveInterval && RowsFor(c.batches[i], city)
  }

  /** The body of the loop for one city: discover its cars, fetch their details in order, save
      in batches. */
  function CrawlCity(web: Web, city: string): (c: CityCrawl)
    ensures Sound(city, c)
    ensures c.outcome == Skipped <==> GetCarList(web, city).Err?
  {
    match GetCarList(web, city)
    case Err(_) => CityCrawl([], Skipped)
    case Ok(cars) =>
      var results := Results(web, city, cars);
      ScheduleBatches(results, (r: Row) => Fits(r) && CityCell(r) == Capitalize(city));
      var f := Schedule(results);
      CityCrawl(f.batches, if f.completed then Done else Aborted)
  }

  /** The loop body as a function of the city, for a given web. */
  function Crawler(web: Web): string -> CityCrawl {
    city => CrawlCity(web, city)
  }

  lemma {:induction false} CrawlerSound(web: Web)
    ensures forall c :: Sound(c, Crawler(web)(c))
  {
    forall c ensures Sound(c, Crawler(web)(c)) {
      assert Crawler(web)(c) == CrawlCity(web, c);
    }
  }

  /** A city crawled to its end saves one row per listed car, in listing order: row `j` is the
      row of the `j`-th car, built from that car's name and URL and from the page its own visit
      loaded. This is `executor.map` pairing each result with its listing entry. */
  lemma {:induction false} CrawlCityRows(web: Web, city: string, cars: seq<Car>)
    requires GetCarList(web, city) == Ok(cars)
    requires CrawlCity(web, city).outcome == Done
    ensures |Flatten(CrawlCity(web, city).batches)| == |cars|
    ensures forall j :: 0 <= j < |cars| ==>
              web.detailPage(Visit(city, j, cars[j].url)).Some? &&
              Flatten(CrawlCity(web, city).batches)[j]
                == CarRow(city, cars[j], web.detailPage(Visit(city, j, cars[j].url)).value)
  {
    var results := Results(web, city, cars);
    assert Schedule(results).completed;
    ScheduleRows(results);
    var rows := Values(results);
    assert Flatten(CrawlCity(web, city).batches) == rows;
    forall j | 0 <= j < |cars|
      ensures web.detailPage(Visit(city, j, cars[j].url)).Some?
      ensures rows[j] == CarRow(city, cars[j], web.detailPage(Visit(city, j, cars[j].url)).value)
    {
      assert results[j] == ResultOf(web, city, j, cars[j]) == Some(rows[j]);
    }
  }

  /** A city's crawl ends the run exactly when its cars were listed and the detail page of one
      of them failed to load. */
  lemma {:induction false} CrawlCityAborted(web: Web, city: string)
    ensures CrawlCity(web, city).outcome == Aborted <==>
              && GetCarList(web, city).Ok?
              && var cars := GetCarList(web, city).value;
                 exists j :: 0 <= j < |cars| && web.detailPage(Visit(city, j, cars[j].url)).None?
  {
    if GetCarList(web, city).Ok? {
      var cars := GetCarList(web, city).value;
      var results := Results(web, city, cars);
      if exists j :: 0 <= j < |cars| && web.detailPage(Visit(city, j, cars[j].url)).None? {
        var j :| 0 <= j < |cars| && web.detailPage(Visit(city, j, cars[j].url)).None?;
        assert results[j].None?;
      }
      if CrawlCity(web, city).outcome == Aborted {
        var j :| 0 <= j < |results| && results[j].None?;
        assert web.detailPage(Visit(city, j, cars[j].url)).None?;
      }
    }
  }

  /** One `save_to_csv` call of a run: the city being crawled and the rows saved. */
  datatype Save = Save(city: string, rows: seq<Row>)

  /** A run's saves, in order, the file afterwards, and whether the run was cut short. */
  datatype RunResult = RunResult(store: Store, saves: seq<Save>, aborted: bool)

  function Tag(city: string, batches: seq<seq<Row>>): (saves: seq<Save>)
    ensures |saves| == |batches|
    ensures forall i :: 0 <= i < |saves| ==> saves[i] == Save(city, batches[i])
  {
    seq(|batches|, i requires 0 <= i < |batches| => Save(city, batches[i]))
  }

  /** The rows of each save, in order. */
  function Batches(saves: seq<Save>): (batches: seq<seq<Row>>)
    ensures |batches| == |saves|
    ensures forall i :: 0 <= i < |saves| ==> batches[i] == saves[i].rows
  {
    seq(|saves|, i requires 0 <= i < |saves| => saves[i].rows)
  }

  lemma {:induction false} BatchesTag(city: string, batches: seq<seq<Row>>)
    ensures Batches(Tag(city, batches)) == batches
  {
  }

  lemma {:induction false} BatchesConcat(a: seq<Save>, b: seq<Save>)
    ensures Batches(a + b) == Batches(a) + Batches(b)
  {
  }

  /** The cities that had at least one save. */
  function SavedCities(saves: seq<Save>): (cities: set<string>)
    ensures forall i :: 0 <= i < |saves| ==> saves[i].city in cities
  {
    if saves == [] then {} else {saves[0].city} + SavedCities(saves[1..])
  }

  /** The `for city in cities` loop: crawl the cities in plan order, appending to the file; stop
      at the first city whose crawl raised out of the loop. */
  function Run(store: Store, plan: seq<string>, crawl: string -> CityCrawl): (r: RunResult)
    requires forall c :: Sound(c, crawl(c))
    ensures store <= r.store
    ensures forall i :: 0 <= i < |r.saves| ==> AllFit(r.saves[i].rows)
    decreases |plan|
  {
    if plan == [] then RunResult(store, [], false)
    else
      var city := plan[0];
      assert Sound(city, crawl(city));
      var batches := crawl(city).batches;
      var here := SaveAll(store, batches);
      if crawl(city).outcome == Aborted then RunResult(here, Tag(city, batches), true)
      else
        var rest := Run(here, plan[1..], crawl);
        RunResult(rest.store, Tag(city, batches) + rest.saves, rest.aborted)
  }

  /** How many cities of the plan a run reaches: up to and including the first city whose crawl
      raised out of the loop, or the whole plan. */
  function Reached(plan: seq<string>, crawl: string -> CityCrawl): (n: nat)
    ensures n <= |plan|
    ensures forall i :: 0 <= i < n - 1 ==> crawl(plan[i]).outcome != Aborted
    ensures n < |plan| ==> 0 < n && crawl(plan[n - 1]).outcome == Aborted
  {
    if plan == [] then 0
    else if crawl(plan[0]).outcome == Aborted then 1
    else 1 + Reached(plan[1..], crawl)
  }

  /** The saves each planned city's crawl would make, city by city. */
  function CitySaves(plan: seq<string>, crawl: string -> CityCrawl): (saves: seq<seq<Save>>)
    ensures |saves| == |plan|
    ensures forall i :: 0 <= i < |plan| ==> saves[i] == Tag(plan[i], crawl(plan[i]).batches)
  {
    seq(|plan|, i requires 0 <= i < |plan| => Tag(plan[i], crawl(plan[i]).batches))
  }

  /** The saves of a run are exactly the batches of every city it reaches, city by city in plan
      order and batch by batch within a city: nothing a crawl saves is dropped, split or merged. */
  lemma {:induction false} RunSavesExact(store: Store, plan: seq<string>, crawl: string -> CityCrawl)
    requires forall c :: Sound(c, crawl(c))
    ensures Run(store, plan, crawl).saves == Flatten(CitySaves(plan, crawl)[..Reached(plan, crawl)])
    decreases |plan|
  {
    if plan != [] {
      var city := plan[0];
      var batches := crawl(city).batches;
      var cs := CitySaves(plan, crawl);
      var here := SaveAll(store, batches);
      if crawl(city).outcome == Aborted {
        assert cs[..1] == [Tag(city, batches)];
        assert Flatten(cs[..1]) == Tag(city, batches) + Flatten([]);
      } else {
        var tail := plan[1..];
        var n := Reached(tail, crawl);
        RunSavesExact(here, tail, crawl);
        assert cs[1..] == CitySaves(tail, crawl);
        assert cs[..n + 1] == [Tag(city, batches)] + CitySaves(tail, crawl)[..n];
      }
    }
  }

  /** A run is cut short exactly when the crawl of some planned city raises out of the loop. */
  lemma {:induction false} RunAborted(store: Store, plan: seq<string>, crawl: string -> CityCrawl)
    requires forall c :: Sound(c, crawl(c))
    ensures Run(store, plan, crawl).aborted <==>
              exists i :: 0 <= i < |plan| && crawl(plan[i]).outcome == Aborted
    decreases |plan|
  {
    if plan != [] && crawl(plan[0]).outcome != Aborted {
      var tail := plan[1..];
      var here := SaveAll(store, crawl(plan[0]).batches);
      RunAborted(here, tail, crawl);
      if exists i :: 0 <= i < |tail| && crawl(tail[i]).outcome == Aborted {
        var i :| 0 <= i < |tail| && crawl(tail[i]).outcome == Aborted;
        assert plan[i + 1] == tail[i];
      }
      if exists i :: 0 <= i < |plan| && crawl(plan[i]).outcome == Aborted {
        var i :| 0 <= i < |plan| && crawl(plan[i]).outcome == Aborted;
        assert tail[i - 1] == plan[i];
      }
    }
  }

  /** `scrape_and_save`: plan from the reference list and the file, then run the plan. What the
      file held stays, and no city is saved again that the file already names. */
  function ScrapeAndSave(lines: seq<string>, store: Store, web: Web): (r: RunResult)
    ensures store <= r.store
    ensures forall i :: 0 <= i < |r.saves| ==>
              r.saves[i].city in LineKeys(lines) && r.saves[i].city !in ScrapedCities(store)
  {
    CrawlerSound(web);
    SavesUnscraped(lines, store, web);
    Run(store, GetCities(lines, ScrapedCities(store)), Crawler(web))
  }

  /** The saves of a run are for cities of the reference list that the file did not name. */
  lemma {:induction false} SavesUnscraped(lines: seq<string>, store: Store, web: Web)
    requires forall c :: Sound(c, Crawler(web)(c))
    ensures forall i :: 0 <= i < |Run(store, GetCities(lines, ScrapedCities(store)), Crawler(web)).saves| ==>
              var save := Run(store, GetCities(lines, ScrapedCities(store)), Crawler(web)).saves[i];
              save.city in LineKeys(lines) && save.city !in ScrapedCities(store)
  {
    RunSaves(store, GetCities(lines, ScrapedCities(store)), Crawler(web));
  }

  lemma {:induction false} SavedCitiesConcat(a: seq<Save>, b: seq<Save>)
    ensures SavedCities(a + b) == SavedCities(a) + SavedCities(b)
  {
    if a == [] {
      assert a + b == b;
    } else {
      assert (a + b)[0] == a[0] && (a + b)[1..] == a[1..] + b;
      SavedCitiesConcat(a[1..], b);
    }
  }

  /** The cities of one city's saves: that city, if anything was saved. */
  lemma {:induction false} SavedCitiesTag(city: string, batches: seq<seq<Row>>)
    ensures SavedCities(Tag(city, batches)) == if batches == [] then {} else {city}
  {
    if batches != [] {
      assert Tag(city, batches)[1..] == Tag(city, batches[1..]);
      SavedCitiesTag(city, batches[1..]);
    }
  }

  /** The file after a run is the file before it with the run's saves applied in order. */
  lemma {:induction false} RunStore(store: Store, plan: seq<string>, crawl: string -> CityCrawl)
    requires forall c :: Sound(c, crawl(c))
    ensures Run(store, plan, crawl).store == SaveAll(store, Batches(Run(store, plan, crawl).saves))
    decreases |plan|
  {
    if plan != [] {
      var city := plan[0];
      assert Sound(city, crawl(city));
      var batches := crawl(city).batches;
      var here := SaveAll(store, batches);
      BatchesTag(city, batches);
      if crawl(city).outcome != Aborted {
        var rest := Run(here, plan[1..], crawl);
        RunStore(here, plan[1..], crawl);
        BatchesConcat(Tag(city, batches), rest.saves);
        assert BatchesFit(Batches(rest.saves));
        SaveAllConcat(store, batches, Batches(rest.saves));
      }
    }
  }

  /** Every save of a run is for a planned city, holds between one and `SAVE_INTERVAL` rows,
      and every row names that city. */
  lemma {:induction false} RunSaves(store: Store, plan: seq<string>, crawl: string -> CityCrawl)
    requires forall c :: Sound(c, crawl(c))
    ensures forall i :: 0 <= i < |Run(store, plan, crawl).saves| ==>
              var save := Run(store, plan, crawl).saves[i];
              save.city in plan && 0 < |save.rows| <= SaveInterval && RowsFor(save.rows, save.city)
    decreases |plan|
  {
    if plan != [] {
      var city := plan[0];
      var batches := crawl(city).batches;
      var here := SaveAll(store, batches);
      if crawl(city).outcome != Aborted {
        var rest := Run(here, plan[1..], crawl);
        RunSaves(here, plan[1..], crawl);
        var saves := Tag(city, batches) + rest.saves;
        forall i | 0 <= i < |saves|
          ensures saves[i].city in plan && 0 < |saves[i].rows| <= SaveInterval
                  && RowsFor(saves[i].rows, saves[i].city)
        {
          if i >= |batches| {
            assert saves[i] == rest.saves[i - |batches|];
            assert saves[i].city in plan[1..];
          }
        }
      }
    }
  }

  /** Cities are crawled in plan order: every save of an earlier city precedes every save of a
      later one. */
  lemma {:induction false} RunOrder(store: Store, plan: seq<string>, crawl: string -> CityCrawl)
    requires forall c :: Sound(c, crawl(c))
    requires Distinct(plan)
    ensures forall i, j :: 0 <= i < j < |Run(store, plan, crawl).saves| ==>
              Run(store, plan, crawl).saves[i].city in plan && Run(store, plan, crawl).saves[j].city in plan
              && IndexOf(plan, Run(store, plan, crawl).saves[i].city) <= IndexOf(plan, Run(store, plan, crawl).saves[j].city)
    decreases |plan|
  {
    RunSaves(store, plan, crawl);
    if plan != [] {
      var city := plan[0];
      var batches := crawl(city).batches;
      var here := SaveAll(store, batches);
      if crawl(city).outcome != Aborted {
        var tail := plan[1..];
        assert Distinct(tail) by {
          forall a, b | 0 <= a < b < |tail| ensures tail[a] != tail[b] {
            assert tail[a] == plan[a + 1] && tail[b] == plan[b + 1];
          }
        }
        var rest := Run(here, tail, crawl);
        RunOrder(here, tail, crawl);
        RunSaves(here, tail, crawl);
        var saves := Tag(city, batches) + rest.saves;
        forall i, j | 0 <= i < j < |saves|
          ensures IndexOf(plan, saves[i].city) <= IndexOf(plan, saves[j].city)
        {
          if i >= |batches| {
            var a, b := rest.saves[i - |batches|].city, rest.saves[j - |batches|].city;
            assert saves[i].city == a && saves[j].city == b;
            ShiftIndex(plan, a);
            ShiftIndex(plan, b);
          }
        }
      }
    }
  }

  /** In a duplicate-free sequence, an element of the tail sits one place further on. */
  lemma {:induction false} ShiftIndex(plan: seq<string>, x: string)
    requires Distinct(plan) && plan != [] && x in plan[1..]
    ensures IndexOf(plan, x) == 1 + IndexOf(plan[1..], x)
  {
    var t := IndexOf(plan[1..], x);
    assert plan[t + 1] == x;
    IndexOfDistinct(plan, t + 1);
  }

  /** Every city of the run's saves is a planned city whose crawl saved something; when the run
      was not cut short, every planned city whose crawl saves something has a save. */
  lemma {:induction false} RunSavedCities(store: Store, plan: seq<string>, crawl: string -> CityCrawl)
    requires forall c :: Sound(c, crawl(c))
    ensures forall c :: c in SavedCities(Run(store, plan, crawl).saves) ==>
              c in plan && crawl(c).batches != []
    ensures !Run(store, plan, crawl).aborted ==>
              forall c :: c in plan && crawl(c).batches != [] ==>
                c in SavedCities(Run(store, plan, crawl).saves)
    decreases |plan|
  {
    if plan != [] {
      var city := plan[0];
      var batches := crawl(city).batches;
      var here := SaveAll(store, batches);
      SavedCitiesTag(city, batches);
      if crawl(city).outcome != Aborted {
        var rest := Run(here, plan[1..], crawl);
        RunSavedCities(here, plan[1..], crawl);
        SavedCitiesConcat(Tag(city, batches), rest.saves);
        assert forall c :: c in plan ==> c == city || c in plan[1..];
      }
    }
  }

  /** The cities read back from the file after a run are the ones read before it plus the
      cities that had a save, and the file is still well formed. */
  lemma {:induction false} RunScraped(store: Store, plan: seq<string>, crawl: string -> CityCrawl)
    requires forall c :: Sound(c, crawl(c))
    requires WellFormed(store)
    requires forall c :: c in plan ==> IsKey(c)
    ensures WellFormed(Run(store, plan, crawl).store)
    ensures ScrapedCities(Run(store, plan, crawl).store)
            == ScrapedCities(store) + SavedCities(Run(store, plan, crawl).saves)
    decreases |plan|
  {
    if plan != [] {
      var city := plan[0];
      var batches := crawl(city).batches;
      var here := SaveAll(store, batches);
      CityScraped(store, city, crawl(city));
      if crawl(city).outcome != Aborted {
        var rest := Run(here, plan[1..], crawl);
        RunScraped(here, plan[1..], crawl);
        SavedCitiesConcat(Tag(city, batches), rest.saves);
      }
    }
  }

  /** Saving one city's batches marks that city as scraped when something was saved. */
  lemma {:induction false} CityScraped(store: Store, city: string, c: CityCrawl)
    requires Sound(city, c) && WellFormed(store) && IsKey(city)
    ensures WellFormed(SaveAll(store, c.batches))
    ensures ScrapedCities(SaveAll(store, c.batches)) == ScrapedCities(store) + SavedCities(Tag(city, c.batches))
  {
    ScrapedAfterSaves(store, c.batches, city);
    SavedCitiesTag(city, c.batches);
  }

  /** After a run, the next run's plan is this run's plan minus the cities that had a save:
      a city with at least one saved row is never planned again, and every other planned city
      is planned again. */
  lemma {:induction false} NextPlan(lines: seq<string>, store: Store, web: Web)
    requires WellFormed(store)
    ensures forall k :: k in GetCities(lines, ScrapedCities(ScrapeAndSave(lines, store, web).store)) <==>
              k in GetCities(lines, ScrapedCities(store)) && k !in SavedCities(ScrapeAndSave(lines, store, web).saves)
  {
    var plan := GetCities(lines, ScrapedCities(store));
    var r := ScrapeAndSave(lines, store, web);
    CrawlerSound(web);
    PlanKeys(lines, ScrapedCities(store));
    RunScraped(store, plan, Crawler(web));
    RunSavedCities(store, plan, Crawler(web));
  }

  /** Planned cities are keys. */
  lemma {:induction false} PlanKeys(lines: seq<string>, scraped: set<string>)
    ensures forall k :: k in GetCities(lines, scraped) ==> IsKey(k)
  {
    forall k | k in GetCities(lines, scraped) ensures IsKey(k) {
      var keys := LineKeys(lines);
      var j :| 0 <= j < |keys| && keys[j] == k;
      assert keys[j] == CityKey(lines[j]);
    }
  }

  /** A planned city whose discovery raises, or whose listing page has no cars, gets no save
      in the run and is planned again in the next one. */
  lemma {:induction false} NothingFoundReplanned(lines: seq<string>, store: Store, web: Web, city: string)
    requires WellFormed(store)
    requires city in GetCities(lines, ScrapedCities(store))
    requires GetCarList(web, city).Err? || GetCarList(web, city) == Ok([])
    ensures forall i :: 0 <= i < |ScrapeAndSave(lines, store, web).saves| ==>
              ScrapeAndSave(lines, store, web).saves[i].city != city
    ensures city in GetCities(lines, ScrapedCities(ScrapeAndSave(lines, store, web).store))
  {
    var plan := GetCities(lines, ScrapedCities(store));
    var r := ScrapeAndSave(lines, store, web);
    CrawlerSound(web);
    if GetCarList(web, city).Ok? {
      assert Results(web, city, []) == [];
      ScheduleEmpty<Row>();
    }
    assert Crawler(web)(city).batches == [];
    RunSavedCities(store, plan, Crawler(web));
    NextPlan(lines, store, web);
  }

  /** Starting from an empty file, a run that saves anything leaves the header as the first
      line and data rows on every other line. */
  lemma {:induction false} RunHeaderOnce(store: Store, plan: seq<string>, crawl: string -> CityCrawl)
    requires forall c :: Sound(c, crawl(c))
    requires store == []
    requires Run(store, plan, crawl).saves != []
    ensures Run(store, plan, crawl).store != [] && Run(store, plan, crawl).store[0] == Header(Columns)
    ensures forall i :: 1 <= i < |Run(store, plan, crawl).store| ==> Run(store, plan, crawl).store[i].Data?
  {
    RunStore(store, plan, crawl);
    HeaderOnce(store, Batches(Run(store, plan, crawl).saves));
  }

  /** A run that saves nothing leaves the file as it was. */
  lemma {:induction false} NoSavesNoChange(store: Store, plan: seq<string>, crawl: string -> CityCrawl)
    requires forall c :: Sound(c, crawl(c))
    requires Run(store, plan, crawl).saves == []
    ensures Run(store, plan, crawl).store == store
  {
    RunStore(store, plan, crawl);
    assert Batches([]) == [];
  }
}
