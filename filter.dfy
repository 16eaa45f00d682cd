/** Land records, as loaded into `landRecords`, and the search criteria read from the form. */
module LandRecords {

  /** One land record; `landType` is the record's `type` (the non-agricultural use class). */
  datatype Record = Record(
    taluka: string,
    village: string,
    holderName: string,
    year: int,
    surveyNo: string,
    landType: string,
    downloadLink: string)

  /**
   * The six form values of a search, as the controls report them: the year
   * is the text value of the year select, and an empty string means "no
   * constraint".
   */
  datatype Criteria = Criteria(
    taluka: string,
    village: string,
    holderName: string,
    surveyNo: string,
    year: string,
    landType: string)

  /** A form with every control left empty. */
  const NoCriteria := Criteria("", "", "", "", "", "")

  /** The fields a search can constrain. */
  datatype Field = Taluka | Village | HolderName | SurveyNo | Year | LandType
}

/**
 * The predicate `performSearch` and `downloadResults` both pass to
 * `landRecords.filter`, and the filter itself.
 */
module FilterEngine {
  import opened Wrappers
  import opened Seqs
  import opened Text
  import opened LandRecords

  /** The text the form holds for field `f`. */
  function Criterion(c: Criteria, f: Field): string
  {
    match f
    case Taluka => c.taluka
    case Village => c.village
    case HolderName => c.holderName
    case SurveyNo => c.surveyNo
    case Year => c.year
    case LandType => c.landType
  }

  /**
   * Whether record `r` meets the constraint criteria `c` put on field `f`:
   * an empty criterion imposes nothing; taluka, village and type must be
   * equal; holder name and survey number are compared lower-cased, by
   * containment; the year select's text must denote the record's year.
   */
  predicate FieldHolds(r: Record, c: Criteria, f: Field): (b: bool)
    ensures Criterion(c, f) == "" ==> b
  {
    assert Lower("") == "";
    match f
    case Taluka => c.taluka == "" || r.taluka == c.taluka
    case Village => c.village == "" || r.village == c.village
    case HolderName => Lower(c.holderName) == "" || Contains(Lower(r.holderName), Lower(c.holderName))
    case SurveyNo => Lower(c.surveyNo) == "" || Contains(Lower(r.surveyNo), Lower(c.surveyNo))
    case Year => c.year == "" || ParseInt(c.year) == Some(r.year)
    case LandType => c.landType == "" || r.landType == c.landType
  }

  /**
   * The conjunction of the six field tests, in the order the search writes
   * them: a record matches exactly when every field test holds.
   */
  predicate Matches(r: Record, c: Criteria): (b: bool)
    ensures b <==> forall f: Field :: FieldHolds(r, c, f)
  {
    FieldHolds(r, c, Taluka) && FieldHolds(r, c, Village) &&
    FieldHolds(r, c, HolderName) && FieldHolds(r, c, SurveyNo) &&
    FieldHolds(r, c, Year) && FieldHolds(r, c, LandType)
  }

  /** `records.filter(r => Matches(r, c))`: the matching records, in their original order. */
  function Filter(records: seq<Record>, c: Criteria): (out: seq<Record>)
    ensures |out| <= |records|
    decreases |records|
  {
    if records == [] then []
    else (if Matches(records[0], c) then [records[0]] else []) + Filter(records[1..], c)
  }

  /** A record is in the result exactly when it is in the input and meets every criterion. */
  lemma {:induction false} FilterMembership(records: seq<Record>, c: Criteria, x: Record)
    ensures x in Filter(records, c) <==> x in records && Matches(x, c)
    decreases |records|
  {
    if records != [] {
      FilterMembership(records[1..], c, x);
      assert records == [records[0]] + records[1..];
    }
  }

  /** The result is empty exactly when no record matches. */
  lemma FilterEmptyIff(records: seq<Record>, c: Criteria)
    ensures Filter(records, c) == [] <==> forall r :: r in records ==> !Matches(r, c)
  {
    if Filter(records, c) != [] {
      FilterMembership(records, c, Filter(records, c)[0]);
    }
    forall r | r in records && Matches(r, c)
      ensures Filter(records, c) != []
    {
      FilterMembership(records, c, r);
    }
  }

  /** Every record the filter leaves out fails at least one non-empty criterion. */
  lemma ExcludedFailsSomeField(records: seq<Record>, c: Criteria, x: Record)
    requires x in records && x !in Filter(records, c)
    ensures exists f: Field :: Criterion(c, f) != "" && !FieldHolds(x, c, f)
  {
    FilterMembership(records, c, x);
    var f: Field :| !FieldHolds(x, c, f);
    assert Criterion(c, f) != "";
  }

  /** Filtering a concatenation filters each part: the filter is stable. */
  lemma {:induction false} FilterAppend(a: seq<Record>, b: seq<Record>, c: Criteria)
    ensures Filter(a + b, c) == Filter(a, c) + Filter(b, c)
    decreases |a|
  {
    if a == [] {
      assert a + b == b;
    } else {
      var ab := a + b;
      assert ab[0] == a[0];
      assert ab[1..] == a[1..] + b;
      var head := if Matches(a[0], c) then [a[0]] else [];
      assert Filter(ab, c) == head + Filter(a[1..] + b, c);
      FilterAppend(a[1..], b, c);
      assert Filter(a, c) == head + Filter(a[1..], c);
    }
  }

  /** The result is an order-preserving subsequence of the record list. */
  lemma {:induction false} FilterIsSubsequence(records: seq<Record>, c: Criteria)
    ensures IsSubsequence(Filter(records, c), records)
    decreases |records|
  {
    if records != [] {
      FilterIsSubsequence(records[1..], c);
      var rest := Filter(records[1..], c);
      assert records == [records[0]] + records[1..];
      if Matches(records[0], c) {
        SubsequenceConsBoth(rest, records[0], records[1..]);
      } else {
        assert Filter(records, c) == rest;
        SubsequenceCons(rest, records[0], records[1..]);
      }
    }
  }

  /**
   * Each matching record keeps its number of occurrences and every other
   * record disappears; with the subsequence property this fixes the result.
   */
  lemma {:induction false} FilterMultiplicity(records: seq<Record>, c: Criteria, x: Record)
    ensures multiset(Filter(records, c))[x] == if Matches(x, c) then multiset(records)[x] else 0
    decreases |records|
  {
    if records != [] {
      FilterMultiplicity(records[1..], c, x);
      assert records == [records[0]] + records[1..];
      assert multiset(records) == multiset([records[0]]) + multiset(records[1..]);
    }
  }

  /** A search with every control empty returns every record, in order. */
  lemma {:induction false} FilterNoCriteria(records: seq<Record>)
    ensures Filter(records, NoCriteria) == records
    decreases |records|
  {
    if records != [] {
      FilterNoCriteria(records[1..]);
      assert Lower("") == "";
      assert Matches(records[0], NoCriteria);
    }
  }

  /**
   * Holder-name matching ignores case on both sides: the record matches the
   * holder-name criterion exactly when the lower-cased criterion occurs in
   * the lower-cased name.
   */
  lemma HolderNameIgnoresCase(r: Record, c: Criteria)
    ensures FieldHolds(r, c, HolderName) <==> exists i :: OccursAt(Lower(r.holderName), Lower(c.holderName), i)
  {
    ContainsAt(Lower(r.holderName), Lower(c.holderName));
  }

  /** The same for the survey number. */
  lemma SurveyNoIgnoresCase(r: Record, c: Criteria)
    ensures FieldHolds(r, c, SurveyNo) <==> exists i :: OccursAt(Lower(r.surveyNo), Lower(c.surveyNo), i)
  {
    ContainsAt(Lower(r.surveyNo), Lower(c.surveyNo));
  }

  /** Typing the holder name in another case gives the same results. */
  lemma {:induction false} FilterCaseInsensitive(records: seq<Record>, c: Criteria)
    ensures Filter(records, c) == Filter(records, c.(holderName := Lower(c.holderName), surveyNo := Lower(c.surveyNo)))
    decreases |records|
  {
    LowerIsIdempotent(c.holderName);
    LowerIsIdempotent(c.surveyNo);
    if records != [] {
      FilterCaseInsensitive(records[1..], c);
    }
  }

  /** "ram" finds "Ramesh Patil". */
  lemma HolderNameExample(r: Record)
    requires r.holderName == "Ramesh Patil"
    ensures Matches(r, NoCriteria.(holderName := "ram"))
  {
    var name := Lower(r.holderName);
    assert name[0] == 'r' && name[1] == 'a' && name[2] == 'm';
    assert name[..3] == "ram";
  }

  /** A year chosen from the year select (the year's numeral) matches exactly that year. */
  lemma YearNumeralMatches(r: Record, y: int)
    ensures FieldHolds(r, NoCriteria.(year := ShowInt(y)), Year) <==> r.year == y
  {
    ParseShowInt(y);
  }

  /** Two records, criteria {taluka: "A"}: only the first one is found. */
  lemma TalukaExample()
    ensures
      var first := Record("A", "X", "Ram", 2020, "12/1", "NA", "");
      var second := Record("B", "Y", "Shyam", 2021, "5", "Residential", "");
      Filter([first, second], NoCriteria.(taluka := "A")) == [first]
  {
    var first := Record("A", "X", "Ram", 2020, "12/1", "NA", "");
    var second := Record("B", "Y", "Shyam", 2021, "5", "Residential", "");
    var c := NoCriteria.(taluka := "A");
    assert Lower("") == "";
    assert Matches(first, c);
    assert !Matches(second, c);
    assert [first, second][1..] == [second];
  }
}
