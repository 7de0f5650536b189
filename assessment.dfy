/** Response handling of `src/components/CareerAssessmentCollector.jsx`:
    `handleResponse` records one answer, and `prepareDataForAnalysis` groups the
    answers by category with per-category sums and counts, or passes through
    answers that arrive already grouped (the bundled test data). */
module Assessment {
  import opened Wrappers
  import opened Props
  import JsParseInt

  /** One entry of the category table: a title and its questions, each a
      question number with its text, in the order `Object.entries` lists them
      (for a `questions` object keyed by numbers, ascending; see `Ascending`). */
  datatype Category = Category(title: string, questions: seq<(nat, string)>)

  /** `{question, response}`; a `None` response is `null` (or, in test data, absent). */
  datatype Item = Item(question: string, response: Option<int>)

  /** A value of the `responses` object: a number stored by `handleResponse`
      (`None` is `NaN`), or an object of items keyed by question number, as in
      the bundled test data. */
  datatype Answer = Score(score: Option<int>) | Section(items: seq<(string, Item)>)

  /** The `responses` object. Properties with integer-like keys (question
      numbers) are listed first, in ascending order, and hold numbers; the
      others follow in insertion order. */
  datatype Responses = Responses(numbered: map<nat, Option<int>>, named: seq<(string, Answer)>)

  /** A category average: `null`, the string `"0.00"`, or `(sum / count).toFixed(2)`. */
  datatype Average = NullAverage | ZeroAverage | Ratio(sum: int, count: nat)

  /** The `responses` and `categoryAverages` parts of `formattedData`. */
  datatype Prepared = Prepared(responses: Responses, averages: seq<(string, Average)>)

  /** `handleResponse(q, value)`: the answer to question `q` becomes `parseInt(value)`. */
  function HandleResponse(r: Responses, q: nat, value: string): (r': Responses)
    ensures r'.numbered.Keys == r.numbered.Keys + {q}
    ensures r'.numbered[q] == JsParseInt.ParseInt(value)
    ensures forall n :: n in r.numbered && n != q ==> r'.numbered[n] == r.numbered[n]
    ensures r'.named == r.named
  {
    r.(numbered := r.numbered[q := JsParseInt.ParseInt(value)])
  }

  /** The least of a non-empty set of question numbers. */
  ghost function MinNumber(ks: set<nat>): (m: nat)
    requires ks != {}
    ensures m in ks && forall n :: n in ks ==> m <= n
    decreases ks
  {
    var x :| x in ks;
    assert forall n :: n in ks ==> n == x || n in ks - {x};
    if ks - {x} == {} then x
    else
      var y := MinNumber(ks - {x});
      if x <= y then x else y
  }

  /** `Object.values(responses)[0]`: the value under the least question
      number if there is one, else the first named property, else nothing. */
  ghost function FirstValue(r: Responses): Option<Answer>
  {
    if r.numbered.Keys != {} then Some(Score(r.numbered[MinNumber(r.numbered.Keys)]))
    else if r.named == [] then None
    else Some(r.named[0].1)
  }

  /** The test-data check: the first value of `responses` is an object with an
      own property `'1'`. A number listed first, or no value at all, fails it. */
  predicate IsTestData(r: Responses)
  {
    && r.numbered == map[]
    && |r.named| > 0
    && r.named[0].1.Section?
    && "1" in Keys(r.named[0].1.items)
  }

  /** `IsTestData` is the check on the first enumerated value: it holds exactly
      when `Object.values(responses)[0]` is an object with an own property `'1'`. */
  lemma IsTestDataMeaning(r: Responses)
    ensures IsTestData(r) <==>
      (FirstValue(r).Some? && FirstValue(r).value.Section? && "1" in Keys(FirstValue(r).value.items))
  {
  }

  /** `responses[n]` on the flat form; `None` is `undefined` or `NaN`. */
  function Lookup(numbered: map<nat, Option<int>>, n: nat): Option<int>
  {
    if n in numbered then numbered[n] else None
  }

  /** JavaScript truthiness of a number: present, not `NaN` and not zero. */
  predicate Truthy(a: Option<int>)
  {
    a.Some? && a.value != 0
  }

  /** `response || null`. */
  function Stored(a: Option<int>): (r: Option<int>)
    ensures r.Some? <==> Truthy(a)
    ensures r.Some? ==> r == a
  {
    if Truthy(a) then a else None
  }

  /** The entries of `categoryResponses`, before they are assigned to the object. */
  function CategoryEntries(qs: seq<(nat, string)>, numbered: map<nat, Option<int>>): (p: seq<(string, Item)>)
    ensures |p| == |qs|
  {
    seq(|qs|, j requires 0 <= j < |qs| =>
      (JsParseInt.NatToString(qs[j].0), Item(qs[j].1, Stored(Lookup(numbered, qs[j].0)))))
  }

  /** `categoryResponses` of one category. */
  function CategoryItems(qs: seq<(nat, string)>, numbered: map<nat, Option<int>>): seq<(string, Item)>
  {
    PutAll(CategoryEntries(qs, numbered))
  }

  /** `categoryCount` after the loop over `qs`. */
  function AnsweredCount(qs: seq<(nat, string)>, numbered: map<nat, Option<int>>): nat
    decreases |qs|
  {
    if qs == [] then 0
    else AnsweredCount(qs[..|qs| - 1], numbered) + if Truthy(Lookup(numbered, qs[|qs| - 1].0)) then 1 else 0
  }

  /** `categorySum` after the loop over `qs`. */
  function AnsweredSum(qs: seq<(nat, string)>, numbered: map<nat, Option<int>>): int
    decreases |qs|
  {
    if qs == [] then 0
    else
      var a := Lookup(numbered, qs[|qs| - 1].0);
      AnsweredSum(qs[..|qs| - 1], numbered) + if Truthy(a) then a.value else 0
  }

  /** The positions of `qs` whose answer is truthy. */
  function AnsweredIndices(qs: seq<(nat, string)>, numbered: map<nat, Option<int>>): set<int>
  {
    set j | 0 <= j < |qs| && Truthy(Lookup(numbered, qs[j].0))
  }

  /** `categoryCount ? (categorySum / categoryCount).toFixed(2) : null`. */
  function FlatAverage(sum: int, count: nat): Average
  {
    if count != 0 then Ratio(sum, count) else NullAverage
  }

  function TitleSections(cats: seq<Category>, numbered: map<nat, Option<int>>): (p: seq<(string, Answer)>)
    ensures |p| == |cats|
  {
    seq(|cats|, i requires 0 <= i < |cats| =>
      (cats[i].title, Section(CategoryItems(cats[i].questions, numbered))))
  }

  function TitleAverages(cats: seq<Category>, numbered: map<nat, Option<int>>): (p: seq<(string, Average)>)
    ensures |p| == |cats|
  {
    seq(|cats|, i requires 0 <= i < |cats| =>
      (cats[i].title, FlatAverage(AnsweredSum(cats[i].questions, numbered), AnsweredCount(cats[i].questions, numbered))))
  }

  /** `formattedData.responses` on the flat branch. */
  function FlatResponses(cats: seq<Category>, numbered: map<nat, Option<int>>): seq<(string, Answer)>
  {
    PutAll(TitleSections(cats, numbered))
  }

  /** `formattedData.categoryAverages` on the flat branch. */
  function FlatAverages(cats: seq<Category>, numbered: map<nat, Option<int>>): seq<(string, Average)>
  {
    PutAll(TitleAverages(cats, numbered))
  }

  /** `item?.response !== undefined && item?.response !== null`. */
  predicate Present(item: Item)
  {
    item.response.Some?
  }

  /** `validResponses.length`. */
  function PresentCount(items: seq<(string, Item)>): nat
    decreases |items|
  {
    if items == [] then 0
    else PresentCount(items[..|items| - 1]) + if Present(items[|items| - 1].1) then 1 else 0
  }

  /** `validResponses.reduce((acc, curr) => acc + curr.response, 0)`. */
  function PresentSum(items: seq<(string, Item)>): int
    decreases |items|
  {
    if items == [] then 0
    else
      var item := items[|items| - 1].1;
      PresentSum(items[..|items| - 1]) + if Present(item) then item.response.value else 0
  }

  /** The positions of `items` whose response is neither `undefined` nor `null`. */
  function PresentIndices(items: seq<(string, Item)>): set<int>
  {
    set j | 0 <= j < |items| && Present(items[j].1)
  }

  /** The average of one test-data category. `Object.values` of a number is
      empty, so a number there averages to `"0.00"` as well. */
  function TestAverage(a: Answer): Average
  {
    match a
    case Score(_) => ZeroAverage
    case Section(items) =>
      if PresentCount(items) > 0 then Ratio(PresentSum(items), PresentCount(items)) else ZeroAverage
  }

  /** `formattedData.categoryAverages` on the test-data branch. */
  function TestAverages(named: seq<(string, Answer)>): seq<(string, Average)>
  {
    PutAll(MapValues(named, TestAverage))
  }

  /** What `prepareDataForAnalysis` computes, apart from `metadata`. */
  function Prepare(cats: seq<Category>, r: Responses): Prepared
  {
    if IsTestData(r) then Prepared(r, TestAverages(r.named))
    else Prepared(Responses(map[], FlatResponses(cats, r.numbered)), FlatAverages(cats, r.numbered))
  }

  /** The inner `forEach` of the flat branch: one category's items, sum and count. */
  method CollectCategory(qs: seq<(nat, string)>, numbered: map<nat, Option<int>>)
    returns (items: seq<(string, Item)>, sum: int, count: nat)
    ensures items == CategoryItems(qs, numbered)
    ensures sum == AnsweredSum(qs, numbered) && count == AnsweredCount(qs, numbered)
  {
    items, sum, count := [], 0, 0;
    for j := 0 to |qs|
      invariant items == CategoryItems(qs[..j], numbered)
      invariant sum == AnsweredSum(qs[..j], numbered)
      invariant count == AnsweredCount(qs[..j], numbered)
    {
      var number := qs[j].0;
      var response := Lookup(numbered, number);
      items := Put(items, JsParseInt.NatToString(number), Item(qs[j].1, if Truthy(response) then response else None));
      if Truthy(response) {
        sum := sum + response.value;
        count := count + 1;
      }
      assert qs[..j + 1][..j] == qs[..j];
      assert CategoryEntries(qs[..j + 1], numbered)[..j] == CategoryEntries(qs[..j], numbered);
    }
    assert qs[..|qs|] == qs;
  }

  /** `prepareDataForAnalysis()` over the category table `cats` and the current `responses`. */
  method PrepareDataForAnalysis(cats: seq<Category>, r: Responses) returns (out: Prepared)
    ensures out == Prepare(cats, r)
    ensures IsTestData(r) ==> out.responses == r
    ensures !IsTestData(r) ==> out.responses.numbered == map[]
    ensures !IsTestData(r) ==> Keys(out.responses.named) == (set i | 0 <= i < |cats| :: cats[i].title)
    ensures !IsTestData(r) ==> DistinctKeys(out.responses.named)
  {
    if IsTestData(r) {
      var averages := [];
      for i := 0 to |r.named|
        invariant averages == PutAll(MapValues(r.named[..i], TestAverage))
      {
        averages := Put(averages, r.named[i].0, TestAverage(r.named[i].1));
        assert MapValues(r.named[..i + 1], TestAverage)[..i] == MapValues(r.named[..i], TestAverage);
      }
      assert r.named[..|r.named|] == r.named;
      out := Prepared(r, averages);
    } else {
      var responses: seq<(string, Answer)> := [];
      var averages: seq<(string, Average)> := [];
      for i := 0 to |cats|
        invariant responses == PutAll(TitleSections(cats[..i], r.numbered))
        invariant averages == PutAll(TitleAverages(cats[..i], r.numbered))
      {
        var items, sum, count := CollectCategory(cats[i].questions, r.numbered);
        responses := Put(responses, cats[i].title, Section(items));
        averages := Put(averages, cats[i].title, if count != 0 then Ratio(sum, count) else NullAverage);
        assert TitleSections(cats[..i + 1], r.numbered)[..i] == TitleSections(cats[..i], r.numbered);
        assert TitleAverages(cats[..i + 1], r.numbered)[..i] == TitleAverages(cats[..i], r.numbered);
      }
      assert cats[..|cats|] == cats;
      out := Prepared(Responses(map[], responses), averages);
      FlatResponseKeys(cats, r.numbered);
    }
  }

  /** The flat branch's `responses` has one property per distinct category title. */
  lemma FlatResponseKeys(cats: seq<Category>, numbered: map<nat, Option<int>>)
    ensures Keys(FlatResponses(cats, numbered)) == (set i | 0 <= i < |cats| :: cats[i].title)
    ensures DistinctKeys(FlatResponses(cats, numbered))
  {
    PutAllKeys(TitleSections(cats, numbered));
    forall t | t in (set i | 0 <= i < |cats| :: cats[i].title) ensures t in Keys(TitleSections(cats, numbered)) {
      var i :| 0 <= i < |cats| && cats[i].title == t;
      assert TitleSections(cats, numbered)[i].0 == t;
    }
  }

  // ----- properties -----

  /** What a `<select>` hands over: an option value `"k"` is stored as the
      number `k`, the blank "Select..." option as `NaN`. */
  lemma HandleResponseOfOption(r: Responses, q: nat, k: nat)
    ensures HandleResponse(r, q, JsParseInt.NatToString(k)).numbered[q] == Some(k)
    ensures HandleResponse(r, q, "").numbered[q] == None
    ensures Truthy(HandleResponse(r, q, JsParseInt.NatToString(k)).numbered[q]) <==> k != 0
  {
    JsParseInt.ParseIntOfNatToString(k);
  }

  /** The question numbers of a category are strictly increasing, as
      `Object.entries` lists the number keys of `category.questions`. */
  predicate Ascending(qs: seq<(nat, string)>)
  {
    forall i, j :: 0 <= i < j < |qs| ==> qs[i].0 < qs[j].0
  }

  /** The question numbers of a category are distinct, as the keys of a JavaScript object are. */
  predicate DistinctNumbers(qs: seq<(nat, string)>)
  {
    forall i, j :: 0 <= i < j < |qs| ==> qs[i].0 != qs[j].0
  }

  predicate DistinctTitles(cats: seq<Category>)
  {
    forall i, j :: 0 <= i < j < |cats| ==> cats[i].title != cats[j].title
  }

  /** On the flat branch a category's items are its questions in ascending
      order of number, each keyed by its number and holding its text and the
      answer when truthy, `null` otherwise (a missing answer, 0 and `NaN`
      alike). Assigning the numbers in ascending order is what makes the
      property list agree with JavaScript's order for number keys. */
  lemma CategoryItemsShape(qs: seq<(nat, string)>, numbered: map<nat, Option<int>>)
    requires Ascending(qs)
    ensures |CategoryItems(qs, numbered)| == |qs|
    ensures forall j :: 0 <= j < |qs| ==>
      (CategoryItems(qs, numbered)[j] ==
        (JsParseInt.NatToString(qs[j].0),
         Item(qs[j].1, if Truthy(Lookup(numbered, qs[j].0)) then Lookup(numbered, qs[j].0) else None)))
  {
    ItemsAreEntries(qs, numbered);
  }

  /** With distinct numbers, no assignment of the loop overwrites another. */
  lemma ItemsAreEntries(qs: seq<(nat, string)>, numbered: map<nat, Option<int>>)
    requires DistinctNumbers(qs)
    ensures CategoryItems(qs, numbered) == CategoryEntries(qs, numbered)
  {
    var p := CategoryEntries(qs, numbered);
    forall i, j | 0 <= i < j < |p| ensures p[i].0 != p[j].0 {
      if p[i].0 == p[j].0 {
        JsParseInt.NatToStringInjective(qs[i].0, qs[j].0);
      }
    }
    PutAllOfDistinct(p);
  }

  /** A category's count is the number of its questions with a truthy answer. */
  lemma {:induction false} AnsweredCountIsCardinality(qs: seq<(nat, string)>, numbered: map<nat, Option<int>>)
    ensures AnsweredCount(qs, numbered) == |AnsweredIndices(qs, numbered)|
    decreases |qs|
  {
    if qs != [] {
      var n := |qs| - 1;
      AnsweredCountIsCardinality(qs[..n], numbered);
      var before := AnsweredIndices(qs[..n], numbered);
      var extra := if Truthy(Lookup(numbered, qs[n].0)) then {n} else {};
      assert AnsweredIndices(qs, numbered) == before + extra by {
        forall j | j in AnsweredIndices(qs, numbered) ensures j in before + extra {
          if j < n { assert qs[..n][j] == qs[j]; }
        }
        forall j | j in before ensures j in AnsweredIndices(qs, numbered) {
          assert qs[..n][j] == qs[j];
        }
      }
      assert n !in before;
    }
  }

  /** A test-data category's count is the number of its items whose response is
      neither `undefined` nor `null`: a response of 0 is counted. */
  lemma {:induction false} PresentCountIsCardinality(items: seq<(string, Item)>)
    ensures PresentCount(items) == |PresentIndices(items)|
    decreases |items|
  {
    if items != [] {
      var n := |items| - 1;
      PresentCountIsCardinality(items[..n]);
      var before := PresentIndices(items[..n]);
      var extra := if Present(items[n].1) then {n} else {};
      assert PresentIndices(items) == before + extra by {
        forall j | j in PresentIndices(items) ensures j in before + extra {
          if j < n { assert items[..n][j] == items[j]; }
        }
        forall j | j in before ensures j in PresentIndices(items) {
          assert items[..n][j] == items[j];
        }
      }
      assert n !in before;
    }
  }

  lemma {:induction false} PresentOfEntries(qs: seq<(nat, string)>, numbered: map<nat, Option<int>>)
    ensures PresentCount(CategoryEntries(qs, numbered)) == AnsweredCount(qs, numbered)
    ensures PresentSum(CategoryEntries(qs, numbered)) == AnsweredSum(qs, numbered)
    decreases |qs|
  {
    if qs != [] {
      var n := |qs| - 1;
      PresentOfEntries(qs[..n], numbered);
      assert CategoryEntries(qs, numbered)[..n] == CategoryEntries(qs[..n], numbered);
    }
  }

  /** The flat branch's count and sum of a category are what the test-data
      branch's filter and reduce give on the items it stored. */
  lemma CountAndSumOfStoredItems(qs: seq<(nat, string)>, numbered: map<nat, Option<int>>)
    requires DistinctNumbers(qs)
    ensures PresentCount(CategoryItems(qs, numbered)) == AnsweredCount(qs, numbered)
    ensures PresentSum(CategoryItems(qs, numbered)) == AnsweredSum(qs, numbered)
  {
    ItemsAreEntries(qs, numbered);
    PresentOfEntries(qs, numbered);
  }

  /** On the flat branch there is one `responses` entry and one average per
      category, in table order: the entry holds the category's items, and the
      average is `null` when no question has a truthy answer and
      `sum / count` over the truthy answers otherwise. */
  lemma FlatBranchPerTitle(cats: seq<Category>, numbered: map<nat, Option<int>>)
    requires DistinctTitles(cats)
    ensures |FlatResponses(cats, numbered)| == |cats| && |FlatAverages(cats, numbered)| == |cats|
    ensures forall i :: 0 <= i < |cats| ==>
      FlatResponses(cats, numbered)[i] == (cats[i].title, Section(CategoryItems(cats[i].questions, numbered)))
    ensures forall i :: 0 <= i < |cats| ==>
      var qs := cats[i].questions;
      FlatAverages(cats, numbered)[i] == (cats[i].title,
        if |AnsweredIndices(qs, numbered)| == 0 then NullAverage
        else Ratio(AnsweredSum(qs, numbered), |AnsweredIndices(qs, numbered)|))
  {
    PutAllOfDistinct(TitleSections(cats, numbered));
    PutAllOfDistinct(TitleAverages(cats, numbered));
    forall i | 0 <= i < |cats|
      ensures AnsweredCount(cats[i].questions, numbered) == |AnsweredIndices(cats[i].questions, numbered)|
    {
      AnsweredCountIsCardinality(cats[i].questions, numbered);
    }
  }

  /** On the test-data branch a category with no present response averages to
      `"0.00"`, never to `null`; otherwise it is the sum over the present
      responses, zeros included, divided by their number. */
  lemma TestAverageMeaning(a: Answer)
    ensures a.Score? ==> TestAverage(a) == ZeroAverage
    ensures a.Section? ==>
      (TestAverage(a) ==
        if |PresentIndices(a.items)| == 0 then ZeroAverage
        else Ratio(PresentSum(a.items), |PresentIndices(a.items)|))
    ensures TestAverage(a) != NullAverage
  {
    if a.Section? {
      PresentCountIsCardinality(a.items);
    }
  }

  function NullToZero(a: Average): Average
  {
    if a == NullAverage then ZeroAverage else a
  }

  /** Feeding the flat branch's grouped output back in: the test-data averages
      of it are the flat averages with `null` turned into `"0.00"`, and when it
      passes the test-data check the whole result is that grouped output with
      those averages. */
  lemma ReprepareFlatOutput(cats: seq<Category>, r: Responses)
    requires !IsTestData(r)
    requires forall i :: 0 <= i < |cats| ==> DistinctNumbers(cats[i].questions)
    ensures TestAverages(Prepare(cats, r).responses.named) == MapValues(Prepare(cats, r).averages, NullToZero)
    ensures IsTestData(Prepare(cats, r).responses) ==>
      Prepare(cats, Prepare(cats, r).responses) == Prepared(Prepare(cats, r).responses, MapValues(Prepare(cats, r).averages, NullToZero))
  {
    var sections := TitleSections(cats, r.numbered);
    var averages := TitleAverages(cats, r.numbered);
    MapValuesPutAll(sections, TestAverage);
    PutAllKeys(MapValues(sections, TestAverage));
    PutAllOfDistinct(PutAll(MapValues(sections, TestAverage)));
    MapValuesPutAll(averages, NullToZero);
    assert MapValues(sections, TestAverage) == MapValues(averages, NullToZero) by {
      forall i | 0 <= i < |cats|
        ensures TestAverage(sections[i].1) == NullToZero(averages[i].1)
      {
        CountAndSumOfStoredItems(cats[i].questions, r.numbered);
      }
    }
  }
}
