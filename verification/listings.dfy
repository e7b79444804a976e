/** The listing page of a city after parsing (`get_car_list`, new.py): the car cards, each
    turned into a name and an absolute URL. */
module Listings {
  import opened Wrappers
  import opened Seqs
  import opened Text

  /** The site origin every listing link is relative to. */
  const Origin := "https://www.carwale.com"

  /** An `<a>` element; `href` is `None` when the attribute is missing. */
  datatype Anchor = Anchor(href: Option<string>)

  /** One car card (`li` element) as the parser sees it: the text of its first `<h3>` and its
      first `<a>`, each `None` when the card has no such element. */
  datatype Element = Element(heading: Option<string>, anchor: Option<Anchor>)

  /** A listed car: its name and the URL of its detail page. */
  datatype Car = Car(name: string, url: string)

  /** Why a listing page yields no cars: the page did not load, or a card's link has no `href`
      (the `KeyError` from `car_link_element["href"]`, which the `except AttributeError` does
      not catch). */
  datatype ListingError = PageLoadFailure | MissingHref

  /** Both elements found: the card is listed. */
  predicate Listed(e: Element) {
    e.heading.Some? && e.anchor.Some?
  }

  /** A listed card whose link has no target: reading it raises. */
  predicate Broken(e: Element) {
    Listed(e) && e.anchor.value.href.None?
  }

  /** The car of a complete card: the heading text, stripped, and the origin followed by the
      link target, which can be read back from the URL. */
  function ToCar(e: Element): (c: Car)
    requires Listed(e) && !Broken(e)
    ensures c.name == Strip(e.heading.value)
    ensures c.name == [] || (!IsSpace(c.name[0]) && !IsSpace(c.name[|c.name| - 1]))
    ensures Origin <= c.url && c.url[|Origin|..] == e.anchor.value.href.value
  {
    Car(Strip(e.heading.value), Origin + e.anchor.value.href.value)
  }

  /** The loop over the cards: skip incomplete cards, convert complete ones, in order; the first
      broken card aborts the whole page. */
  function CarList(cards: seq<Element>): (r: Result<seq<Car>, ListingError>)
    ensures r.Ok? ==> |r.value| <= |cards|
    ensures r.Err? ==> r.error == MissingHref
  {
    if cards == [] then Ok([])
    else
      var e := cards[0];
      if Listed(e) && Broken(e) then Err(MissingHref)
      else
        match CarList(cards[1..])
        case Err(err) => Err(err)
        case Ok(rest) => Ok((if Listed(e) then [ToCar(e)] else []) + rest)
  }

  /** The cars of a well-formed page, by an independent route: keep the complete cards, then
      convert each. */
  function ListedCars(cards: seq<Element>): (cars: seq<Car>)
    requires forall i :: 0 <= i < |cards| ==> !Broken(cards[i])
    ensures |cars| == |Keep(cards, Listed)|
    ensures forall k :: 0 <= k < |cars| ==> cars[k] == ToCar(Keep(cards, Listed)[k])
  {
    Convert(Keep(cards, Listed))
  }

  /** Every card is complete and has a link target. */
  predicate Convertible(kept: seq<Element>) {
    forall i :: 0 <= i < |kept| ==> Listed(kept[i]) && !Broken(kept[i])
  }

  /** Each of a sequence of complete cards, converted. */
  function Convert(kept: seq<Element>): (cars: seq<Car>)
    requires Convertible(kept)
    ensures |cars| == |kept|
    ensures forall k :: 0 <= k < |kept| ==> cars[k] == ToCar(kept[k])
  {
    if kept == [] then []
    else
      var rest := Convert(kept[1..]);
      ConvertStep(kept, rest);
      [ToCar(kept[0])] + rest
  }

  /** Converting the first card in front of the converted rest converts every card. */
  lemma {:induction false} ConvertStep(kept: seq<Element>, rest: seq<Car>)
    requires kept != [] && Convertible(kept)
    requires |rest| == |kept| - 1 && forall k :: 0 <= k < |rest| ==> rest[k] == ToCar(kept[1..][k])
    ensures forall k :: 0 <= k < |kept| ==> ([ToCar(kept[0])] + rest)[k] == ToCar(kept[k])
  {
    forall k | 0 < k < |kept|
      ensures ([ToCar(kept[0])] + rest)[k] == ToCar(kept[k])
    {
      assert kept[1..][k - 1] == kept[k];
    }
  }

  /** A page fails exactly when one of its complete cards has no `href`; otherwise its cars are
      its complete cards, converted, in page order. */
  lemma {:induction false} CarListSpec(cards: seq<Element>)
    ensures CarList(cards).Err? <==> exists i :: 0 <= i < |cards| && Broken(cards[i])
    ensures CarList(cards).Ok? ==> CarList(cards).value == ListedCars(cards)
  {
    CarListFails(cards);
    if CarList(cards).Ok? {
      CarListCars(cards);
    }
  }

  lemma {:induction false} CarListFails(cards: seq<Element>)
    ensures CarList(cards).Err? <==> exists i :: 0 <= i < |cards| && Broken(cards[i])
  {
    if cards != [] {
      var tail := cards[1..];
      CarListFails(tail);
      if exists i :: 0 <= i < |tail| && Broken(tail[i]) {
        var i :| 0 <= i < |tail| && Broken(tail[i]);
        assert Broken(cards[i + 1]);
      }
      if exists i :: 0 <= i < |cards| && Broken(cards[i]) {
        var i :| 0 <= i < |cards| && Broken(cards[i]);
        if i > 0 {
          assert Broken(tail[i - 1]);
        }
      }
    }
  }

  lemma {:induction false} CarListCars(cards: seq<Element>)
    requires CarList(cards).Ok?
    ensures forall i :: 0 <= i < |cards| ==> !Broken(cards[i])
    ensures CarList(cards).value == ListedCars(cards)
  {
    CarListFails(cards);
    if cards != [] {
      var e, tail := cards[0], cards[1..];
      CarListCars(tail);
      assert CarList(cards).value == (if Listed(e) then [ToCar(e)] else []) + ListedCars(tail);
      ListedCarsCons(cards);
    }
  }

  /** The reference definition, one card at a time. */
  lemma {:induction false} ListedCarsCons(cards: seq<Element>)
    requires cards != [] && forall i :: 0 <= i < |cards| ==> !Broken(cards[i])
    ensures ListedCars(cards) == (if Listed(cards[0]) then [ToCar(cards[0])] else []) + ListedCars(cards[1..])
  {
    var e, rest := cards[0], Keep(cards[1..], Listed);
    assert Keep(cards, Listed) == (if Listed(e) then [e] else []) + rest;
    if Listed(e) {
      assert Convertible([e] + rest);
      ConvertCons(e, rest);
    }
  }

  /** Every car URL is absolute: it starts with the site's origin. */
  lemma {:induction false} UrlsAreAbsolute(cards: seq<Element>)
    requires CarList(cards).Ok?
    ensures forall k :: 0 <= k < |CarList(cards).value| ==> Origin <= CarList(cards).value[k].url
  {
    CarListCars(cards);
  }

  /** The cars of a page that succeeds come from complete cards at strictly increasing
      positions, each named by its stripped heading and pointing at the origin plus its `href`. */
  lemma {:induction false} CarListOrder(cards: seq<Element>) returns (idx: seq<nat>)
    requires CarList(cards).Ok?
    ensures |idx| == |CarList(cards).value| && StrictlyIncreasing(idx)
    ensures forall k :: 0 <= k < |idx| ==>
              && idx[k] < |cards| && Listed(cards[idx[k]]) && !Broken(cards[idx[k]])
              && CarList(cards).value[k]
                   == Car(Strip(cards[idx[k]].heading.value), Origin + cards[idx[k]].anchor.value.href.value)
  {
    CarListCars(cards);
    idx := KeepIndices(cards, Listed);
    forall k | 0 <= k < |idx|
      ensures Listed(cards[idx[k]])
    {
      assert Keep(cards, Listed)[k] == cards[idx[k]];
      KeepSound(cards, Listed, cards[idx[k]]);
    }
  }

  lemma {:induction false} ConvertCons(e: Element, rest: seq<Element>)
    requires Listed(e) && !Broken(e) && Convertible([e] + rest)
    ensures Convertible(rest)
    ensures Convert([e] + rest) == [ToCar(e)] + Convert(rest)
  {
    assert ([e] + rest)[1..] == rest;
  }
}
