/** The work plan of a run (`get_cities`, new.py): city keys derived from the reference list,
    priority cities first, then every other city in reference-list order, minus the cities the
    store already holds rows for. */
module Cities {
  import opened Seqs
  import opened Text

  /** The hand-ordered list of high-value markets crawled first. */
  const PriorityOrder: seq<string> := [
    "mumbai", "bangalore", "hyderabad", "pune",
    "delhi", "gurgaon", "gurugram", "noida", "faridabad", "ghaziabad", "meerut",
    "lucknow", "nashik", "nagpur", "kerala", "trivandrum", "patna"
  ]

  /** The raw label of a reference-list line: its text before the first comma, stripped. It is
      no longer than the line, holds no comma, and neither starts nor ends with whitespace. */
  function RawLabel(line: string): (text: string)
    ensures |text| <= |line| && ',' !in text
    ensures text == [] || (!IsSpace(text[0]) && !IsSpace(text[|text| - 1]))
  {
    StripWithin(BeforeComma(line));
    Strip(BeforeComma(line))
  }

  /** The letters of `s`, each lower-cased, in order; everything else dropped. */
  function Letters(s: string): (k: string)
    ensures IsKey(k)
    ensures |k| <= |s|
  {
    if s == [] then []
    else (if IsLetter(s[0]) then [LowerChar(s[0])] else []) + Letters(s[1..])
  }

  /** The city key of a line, as `re.sub(r'[^a-zA-Z]', '', label.lower())` computes it: the raw
      label lower-cased, then every character outside `[a-zA-Z]` removed. It is the label's
      letters, lower-cased. */
  function CityKey(line: string): (k: string)
    ensures k == Letters(RawLabel(line))
    ensures IsKey(k)
  {
    LowerThenFilter(RawLabel(line));
    Keep(Lower(RawLabel(line)), IsLetter)
  }

  /** Lower-casing and then keeping the letters is keeping the letters, lower-cased. */
  lemma {:induction false} LowerThenFilter(s: string)
    ensures Keep(Lower(s), IsLetter) == Letters(s)
  {
    if s != [] {
      var lowered := Lower(s);
      assert lowered[0] == LowerChar(s[0]);
      assert lowered[1..] == Lower(s[1..]);
      LowerThenFilter(s[1..]);
    }
  }

  /** A key's letters are the key itself. */
  lemma {:induction false} LettersOfKey(k: string)
    requires IsKey(k)
    ensures Letters(k) == k
  {
    if k != [] {
      LettersOfKey(k[1..]);
      assert [k[0]] + k[1..] == k;
    }
  }

  /** Normalising a key changes nothing, so normalisation is idempotent. */
  lemma {:induction false} CityKeyOfKey(k: string)
    requires IsKey(k)
    ensures CityKey(k) == k
  {
    assert BeforeComma(k) == k by {
      assert ',' !in k by {
        forall i | 0 <= i < |k| ensures k[i] != ',' {
          assert IsLower(k[i]);
        }
      }
    }
    StripTrimmed(k);
    LettersOfKey(k);
  }

  lemma {:induction false} CityKeyIdempotent(line: string)
    ensures CityKey(CityKey(line)) == CityKey(line)
  {
    CityKeyOfKey(CityKey(line));
  }

  /** The letters of a concatenation are the letters of its parts. */
  lemma {:induction false} LettersConcat(a: string, b: string)
    ensures Letters(a + b) == Letters(a) + Letters(b)
  {
    if a != [] {
      assert (a + b)[0] == a[0];
      assert (a + b)[1..] == a[1..] + b;
      LettersConcat(a[1..], b);
    } else {
      assert a + b == b;
    }
  }

  lemma {:induction false} NoLetters(s: string)
    requires forall i :: 0 <= i < |s| ==> !IsLetter(s[i])
    ensures Letters(s) == []
  {
    if s != [] {
      assert forall i :: 0 <= i < |s[1..]| ==> !IsLetter(s[1..][i]) by {
        forall i | 0 <= i < |s[1..]| ensures !IsLetter(s[1..][i]) {
          assert s[1..][i] == s[i + 1];
        }
      }
      NoLetters(s[1..]);
    }
  }

  lemma {:induction false} OnlyLetters(s: string)
    requires forall i :: 0 <= i < |s| ==> IsLetter(s[i])
    ensures Letters(s) == Lower(s)
  {
    if s != [] {
      assert forall i :: 0 <= i < |s[1..]| ==> IsLetter(s[1..][i]) by {
        forall i | 0 <= i < |s[1..]| ensures IsLetter(s[1..][i]) {
          assert s[1..][i] == s[i + 1];
        }
      }
      OnlyLetters(s[1..]);
      assert Lower(s) == [LowerChar(s[0])] + Lower(s[1..]);
    }
  }

  /** `strip()` splits its input into leading whitespace, the result, trailing whitespace. */
  lemma {:induction false} StripParts(s: string) returns (front: string, back: string)
    ensures s == front + Strip(s) + back
    ensures AllSpace(front) && AllSpace(back)
  {
    var i := StripSlice(s);
    front, back := s[..i], s[i + |Strip(s)|..];
    assert s == front + Strip(s) + back;
  }

  lemma {:induction false} AllSpaceNoLetters(s: string)
    requires AllSpace(s)
    ensures Letters(s) == []
  {
    NoLetters(s);
  }

  /** `strip()` removes only whitespace, which the letter filter drops anyway: the key is
      decided by the text before the first comma alone. */
  lemma {:induction false} CityKeyIgnoresStrip(line: string)
    ensures CityKey(line) == Letters(BeforeComma(line))
  {
    var field := BeforeComma(line);
    var front, back := StripParts(field);
    LettersConcat(front + Strip(field), back);
    LettersConcat(front, Strip(field));
    AllSpaceNoLetters(front);
    AllSpaceNoLetters(back);
  }

  /** A run of characters that may separate the words of a label: no letters and no comma. */
  predicate IsSeparator(s: string) {
    forall i :: 0 <= i < |s| ==> !IsLetter(s[i]) && s[i] != ','
  }

  predicate IsWord(s: string) {
    forall i :: 0 <= i < |s| ==> IsLetter(s[i])
  }

  /** Two words joined by any separator, with any separators around them, give the key made of
      the two words lower-cased: letter case, punctuation and whitespace do not tell cities apart. */
  lemma {:induction false} CityKeyOfTwoWords(pre: string, w1: string, mid: string, w2: string, post: string)
    requires IsSeparator(pre) && IsWord(w1) && IsSeparator(mid) && IsWord(w2) && IsSeparator(post)
    ensures CityKey(pre + w1 + mid + w2 + post) == Lower(w1) + Lower(w2)
  {
    NoComma(pre);
    NoComma(w1);
    NoComma(mid);
    NoComma(w2);
    NoComma(post);
    CityKeyWithoutComma(pre + w1 + mid + w2 + post);
    var first, second := Lower(w1), Lower(w2);
    assert Letters(pre + w1) == first by {
      LettersConcat(pre, w1);
      NoLetters(pre);
      OnlyLetters(w1);
      assert [] + first == first;
    }
    assert Letters(pre + w1 + mid) == first by {
      LettersConcat(pre + w1, mid);
      NoLetters(mid);
      assert first + [] == first;
    }
    assert Letters(pre + w1 + mid + w2) == first + second by {
      LettersConcat(pre + w1 + mid, w2);
      OnlyLetters(w2);
    }
    LettersConcat(pre + w1 + mid + w2, post);
    NoLetters(post);
    assert first + second + [] == first + second;
  }

  lemma {:induction false} NoComma(s: string)
    requires IsSeparator(s) || IsWord(s)
    ensures ',' !in s
  {
    forall i | 0 <= i < |s| ensures s[i] != ',' {
    }
  }

  /** On a line without a comma, the key is the line's letters, lower-cased. */
  lemma {:induction false} CityKeyWithoutComma(line: string)
    requires ',' !in line
    ensures CityKey(line) == Letters(line)
  {
    assert BeforeComma(line) == line;
    CityKeyIgnoresStrip(line);
  }

  /** The two spellings of the capital in the reference list normalise to one key. */
  lemma {:induction false} NewDelhiSpaced()
    ensures CityKey("New Delhi") == "newdelhi"
  {
    assert "New Delhi" == [] + "New" + " " + "Delhi" + [];
    CityKeyOfTwoWords([], "New", " ", "Delhi", []);
    NewDelhiWords("New", "Delhi");
  }

  lemma {:induction false} NewDelhiHyphenated()
    ensures CityKey("new-delhi ") == "newdelhi"
  {
    assert "new-delhi " == [] + "new" + "-" + "delhi" + " ";
    CityKeyOfTwoWords([], "new", "-", "delhi", " ");
    NewDelhiWords("new", "delhi");
  }

  lemma {:induction false} NewDelhiWords(w1: string, w2: string)
    requires w1 == "New" || w1 == "new"
    requires w2 == "Delhi" || w2 == "delhi"
    ensures Lower(w1) + Lower(w2) == "newdelhi"
  {
    assert Lower(w1) == "new";
    assert Lower(w2) == "delhi";
    assert "new" + "delhi" == "newdelhi";
  }

  /** The key of every reference-list line, line by line, duplicates included. */
  function LineKeys(lines: seq<string>): (keys: seq<string>)
    ensures |keys| == |lines|
    ensures forall i :: 0 <= i < |lines| ==> keys[i] == CityKey(lines[i])
  {
    seq(|lines|, i requires 0 <= i < |lines| => CityKey(lines[i]))
  }

  /** `city_map`: a Python dict from city key to raw label. `order` lists its keys in the order
      each was first inserted, which is the order `city_map.keys()` yields them. */
  datatype CityMap = CityMap(order: seq<string>, labels: map<string, string>)

  ghost predicate ValidMap(m: CityMap) {
    Distinct(m.order) && (forall k :: k in m.order <==> k in m.labels)
  }

  const EmptyMap := CityMap([], map[])

  /** `city_map[key] = text`. The entry for `key` now holds `text`; every other entry is
      untouched; a key already present keeps its position and a new key goes last. */
  function Assign(m: CityMap, key: string, text: string): (r: CityMap)
    requires ValidMap(m)
    ensures ValidMap(r)
    ensures key in r.labels && r.labels[key] == text
    ensures forall k :: k != key ==> (k in r.labels <==> k in m.labels)
    ensures forall k :: k != key && k in m.labels ==> r.labels[k] == m.labels[k]
    ensures forall k :: k in m.labels ==> IndexOf(r.order, k) == IndexOf(m.order, k)
    ensures key !in m.labels ==> IndexOf(r.order, key) == |m.order|
  {
    if key in m.labels then
      CityMap(m.order, m.labels[key := text])
    else
      var order := m.order + [key];
      assert forall k :: k in m.labels ==> IndexOf(order, k) == IndexOf(m.order, k) by {
        forall k | k in m.labels ensures IndexOf(order, k) == IndexOf(m.order, k) {
          IndexOfAppend(m.order, key, k);
        }
      }
      IndexOfAppendNew(m.order, key);
      assert Distinct(order) by {
        DistinctConcat(m.order, [key]);
      }
      CityMap(order, m.labels[key := text])
  }

  /** The loop of `get_cities` that fills `city_map` from the reference list, one line at a time. */
  function BuildCityMap(lines: seq<string>): (m: CityMap)
    ensures ValidMap(m)
    ensures forall k :: k in m.labels <==> k in LineKeys(lines)
  {
    if lines == [] then EmptyMap
    else
      var line := lines[|lines| - 1];
      var prev := BuildCityMap(lines[..|lines| - 1]);
      var m := Assign(prev, CityKey(line), RawLabel(line));
      LineKeysSnoc(lines);
      assert forall k :: k in m.labels <==> k in LineKeys(lines) by {
        forall k ensures k in m.labels <==> k in LineKeys(lines) {
          if k != CityKey(line) {
            assert k in m.labels <==> k in prev.labels;
          }
        }
      }
      m
  }

  /** The keys of a prefix followed by the key of the next line are the keys of the longer prefix. */
  lemma {:induction false} LineKeysSnoc(lines: seq<string>)
    requires lines != []
    ensures LineKeys(lines) == LineKeys(lines[..|lines| - 1]) + [CityKey(lines[|lines| - 1])]
  {
  }

  /** The dict remembers first insertions: two keys are listed in the order in which they first
      occur among the lines' keys, however often either is overwritten later. */
  lemma {:induction false} CityMapOrder(lines: seq<string>, a: string, b: string)
    requires a in LineKeys(lines) && b in LineKeys(lines)
    ensures a in BuildCityMap(lines).order && b in BuildCityMap(lines).order
    ensures IndexOf(BuildCityMap(lines).order, a) < IndexOf(BuildCityMap(lines).order, b)
            <==> IndexOf(LineKeys(lines), a) < IndexOf(LineKeys(lines), b)
  {
    var init := lines[..|lines| - 1];
    var key := CityKey(lines[|lines| - 1]);
    var before, keys := LineKeys(init), LineKeys(lines);
    var prev, m := BuildCityMap(init), BuildCityMap(lines);
    LineKeysSnoc(lines);
    assert m == Assign(prev, key, RawLabel(lines[|lines| - 1]));
    if a in before && b in before {
      CityMapOrder(init, a, b);
      IndexOfAppend(before, key, a);
      IndexOfAppend(before, key, b);
    } else if a in before {
      assert b == key;
      IndexOfAppend(before, key, a);
      IndexOfAppendNew(before, key);
    } else if b in before {
      assert a == key;
      IndexOfAppend(before, key, b);
      IndexOfAppendNew(before, key);
    } else {
      assert a == key && b == key;
    }
  }

  /** The dict keeps the last label written: a key's label is the raw label of the last line
      with that key. */
  lemma {:induction false} CityMapLabel(lines: seq<string>, k: string)
    requires k in LineKeys(lines)
    ensures k in BuildCityMap(lines).labels
    ensures BuildCityMap(lines).labels[k] == RawLabel(lines[LastIndexOf(LineKeys(lines), k)])
  {
    var init := lines[..|lines| - 1];
    var key := CityKey(lines[|lines| - 1]);
    LineKeysSnoc(lines);
    if k != key {
      assert k in LineKeys(init);
      CityMapLabel(init, k);
      LastIndexOfAppend(LineKeys(init), key, k);
      assert lines[LastIndexOf(LineKeys(init), k)] == init[LastIndexOf(LineKeys(init), k)];
    }
  }

  /** No priority city is listed twice. */
  lemma {:induction false} PriorityDistinct()
    ensures Distinct(PriorityOrder)
  {
  }

  /** The priority cities that are in the map and not yet scraped, in priority order. */
  function PriorityPart(priority: seq<string>, m: CityMap, scraped: set<string>): seq<string> {
    Keep(priority, k => k in m.labels && k !in scraped)
  }

  /** The other cities that are not yet scraped, in the dict's order. */
  function RemainingPart(priority: seq<string>, m: CityMap, scraped: set<string>): seq<string> {
    Keep(m.order, k => k !in priority && k !in scraped)
  }

  /** `prioritized + remaining`: the cities to crawl this run. Every city of the map that is not
      yet scraped is in it, nothing else is, and none twice. */
  function Plan(priority: seq<string>, m: CityMap, scraped: set<string>): (plan: seq<string>)
    requires Distinct(priority) && ValidMap(m)
    ensures Distinct(plan)
    ensures forall k :: k in plan <==> k in m.labels && k !in scraped
  {
    var first, rest := PriorityPart(priority, m, scraped), RemainingPart(priority, m, scraped);
    PlanParts(priority, m, scraped);
    first + rest
  }

  lemma {:induction false} PlanParts(priority: seq<string>, m: CityMap, scraped: set<string>)
    requires Distinct(priority) && ValidMap(m)
    ensures Distinct(PriorityPart(priority, m, scraped) + RemainingPart(priority, m, scraped))
    ensures forall k :: k in PriorityPart(priority, m, scraped) + RemainingPart(priority, m, scraped)
                        <==> k in m.labels && k !in scraped
  {
    var inMap := (k: string) => k in m.labels && k !in scraped;
    var other := (k: string) => k !in priority && k !in scraped;
    var first, rest := Keep(priority, inMap), Keep(m.order, other);
    assert first == PriorityPart(priority, m, scraped) && rest == RemainingPart(priority, m, scraped);
    KeepDistinct(priority, inMap);
    KeepDistinct(m.order, other);
    DistinctConcat(first, rest);
    forall k ensures k in first + rest <==> k in m.labels && k !in scraped {
      if k in first {
        KeepSound(priority, inMap, k);
      } else if k in rest {
        KeepSound(m.order, other, k);
      }
      if k in m.labels && k !in scraped {
        if k in priority {
          KeepContains(priority, inMap, k);
        } else {
          KeepContains(m.order, other, k);
        }
      }
    }
  }

  /** The plan's order: priority cities come first and in priority order; the others follow in
      the order their keys first appeared in the reference list. */
  lemma {:induction false} PlanOrder(priority: seq<string>, m: CityMap, scraped: set<string>)
    requires Distinct(priority) && ValidMap(m)
    ensures forall i, j :: 0 <= i < j < |Plan(priority, m, scraped)| && Plan(priority, m, scraped)[j] in priority
              ==> Plan(priority, m, scraped)[i] in priority
    ensures forall i, j :: 0 <= i < j < |Plan(priority, m, scraped)| && Plan(priority, m, scraped)[j] in priority
              ==> IndexOf(priority, Plan(priority, m, scraped)[i]) < IndexOf(priority, Plan(priority, m, scraped)[j])
    ensures forall i, j :: 0 <= i < j < |Plan(priority, m, scraped)| && Plan(priority, m, scraped)[i] !in priority
              ==> (Plan(priority, m, scraped)[j] in m.order && Plan(priority, m, scraped)[i] in m.order
                   && IndexOf(m.order, Plan(priority, m, scraped)[i]) < IndexOf(m.order, Plan(priority, m, scraped)[j]))
  {
    var plan := Plan(priority, m, scraped);
    forall i, j | 0 <= i < j < |plan|
      ensures plan[j] in priority ==> plan[i] in priority
      ensures plan[j] in priority ==> IndexOf(priority, plan[i]) < IndexOf(priority, plan[j])
      ensures plan[i] !in priority ==>
                (plan[j] in m.order && plan[i] in m.order && IndexOf(m.order, plan[i]) < IndexOf(m.order, plan[j]))
    {
      PlanPairOrder(priority, m, scraped, i, j);
    }
  }

  /** `PlanOrder` for one pair of positions. */
  lemma {:induction false} PlanPairOrder(priority: seq<string>, m: CityMap, scraped: set<string>, i: nat, j: nat)
    requires Distinct(priority) && ValidMap(m)
    requires i < j < |Plan(priority, m, scraped)|
    ensures Plan(priority, m, scraped)[j] in priority ==> Plan(priority, m, scraped)[i] in priority
    ensures Plan(priority, m, scraped)[j] in priority ==>
              IndexOf(priority, Plan(priority, m, scraped)[i]) < IndexOf(priority, Plan(priority, m, scraped)[j])
    ensures Plan(priority, m, scraped)[i] !in priority ==>
              (Plan(priority, m, scraped)[j] in m.order && Plan(priority, m, scraped)[i] in m.order
                   && IndexOf(m.order, Plan(priority, m, scraped)[i]) < IndexOf(m.order, Plan(priority, m, scraped)[j]))
  {
    var inMap := (k: string) => k in m.labels && k !in scraped;
    var other := (k: string) => k !in priority && k !in scraped;
    var first, rest := Keep(priority, inMap), Keep(m.order, other);
    var plan := Plan(priority, m, scraped);
    assert plan == first + rest;
    if j < |first| {
      assert plan[i] == first[i] && plan[j] == first[j];
      KeepOrder(priority, inMap);
    } else if i < |first| {
      assert plan[i] == first[i] && plan[j] == rest[j - |first|];
      assert plan[i] in priority && plan[j] !in priority;
    } else {
      assert plan[i] == rest[i - |first|] && plan[j] == rest[j - |first|];
      KeepOrder(m.order, other);
    }
  }

  /** `get_cities`: the plan built from the reference-list lines and the set of scraped cities. */
  function GetCities(lines: seq<string>, scraped: set<string>): (plan: seq<string>)
    ensures Distinct(plan)
    ensures forall k :: k in plan <==> k in LineKeys(lines) && k !in scraped
  {
    PriorityDistinct();
    Plan(PriorityOrder, BuildCityMap(lines), scraped)
  }
}
