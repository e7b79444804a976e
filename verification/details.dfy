/** The detail record of one car (`get_car_details` and its `extract_text`, new.py): ten named
    fields, each either the stripped text the page shows for it or a fixed placeholder. */
module Details {
  import opened Wrappers
  import opened Seqs
  import opened Text

  /** The names of the ten detail fields, in the order the record is filled. */
  const DetailFields: seq<string> := [
    "Price", "Kilometers Driven", "Transmission", "Fuel Type", "Manufacturing Year",
    "Number of Owners", "Color", "Car Available At", "Insurance", "Registration"
  ]

  /** What a field holds when its element cannot be found. */
  const NotAvailable := "Not Available"

  /** A loaded detail page, seen through its element lookups: for each field name, the text of
      the element its XPath selects, or `None` when the lookup raises. */
  type Lookup = string -> Option<string>

  /** A detail record: field name to value. */
  type Record = map<string, string>

  /** `extract_text`: the element's text, stripped, or the placeholder when the lookup failed. */
  function ExtractText(found: Option<string>): (v: string)
    ensures found.None? ==> v == NotAvailable
    ensures found.Some? ==> v == Strip(found.value)
  {
    match found
    case None => NotAvailable
    case Some(text) => Strip(text)
  }

  /** `get_car_details` once the page is loaded: every detail field, extracted independently. */
  function CarDetails(page: Lookup): (r: Record)
    ensures r.Keys == set f | f in DetailFields
    ensures forall f :: f in r && page(f).None? ==> r[f] == NotAvailable
    ensures forall f :: f in r && page(f).Some? ==> r[f] == Strip(page(f).value)
  {
    map f | f in DetailFields :: ExtractText(page(f))
  }

  /** No field name is listed twice. */
  lemma {:induction false} DetailFieldsDistinct()
    ensures Distinct(DetailFields)
  {
  }

  /** The record has exactly ten fields. */
  lemma {:induction false} TenFields(page: Lookup)
    ensures |CarDetails(page)| == 10
  {
    DetailFieldsDistinct();
    DistinctCard(DetailFields);
  }

  /** A duplicate-free sequence has as many distinct elements as positions. */
  lemma {:induction false} DistinctCard<T>(s: seq<T>)
    requires Distinct(s)
    ensures |set x | x in s| == |s|
  {
    if s != [] {
      var tail := s[1..];
      assert Distinct(tail) by {
        forall i, j | 0 <= i < j < |tail| ensures tail[i] != tail[j] {
          assert tail[i] == s[i + 1] && tail[j] == s[j + 1];
        }
      }
      DistinctCard(tail);
      assert s[0] !in tail by {
        forall j | 0 <= j < |tail| ensures tail[j] != s[0] {
          assert tail[j] == s[j + 1];
        }
      }
      assert (set x | x in s) == (set x | x in tail) + {s[0]} by {
        assert s == [s[0]] + tail;
      }
    }
  }

  /** The lookup as it is after the element for `field` disappears from the page. */
  function Breaking(page: Lookup, field: string): Lookup {
    f => if f == field then None else page(f)
  }

  /** One field failing changes that field to the placeholder and leaves every other field as
      it was: the `except` around each lookup keeps failures local. */
  lemma {:induction false} FailureIsLocal(page: Lookup, field: string)
    requires field in DetailFields
    ensures CarDetails(Breaking(page, field)).Keys == CarDetails(page).Keys
    ensures CarDetails(Breaking(page, field))[field] == NotAvailable
    ensures forall f :: f in CarDetails(page) && f != field ==>
              CarDetails(Breaking(page, field))[f] == CarDetails(page)[f]
  {
  }
}
