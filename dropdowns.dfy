/**
 * The choices of the search form's select controls: talukas, villages and
 * years, each value once in order of first appearance (years newest first),
 * and the village list narrowed to the selected taluka.
 */
module Dropdowns {
  import opened Seqs
  import opened Text
  import opened LandRecords
  import opened FilterEngine

  /** `[...new Set(values)]`: every value once, in the order it first appears. */
  function Distinct<T(==,!new)>(s: seq<T>): (d: seq<T>)
    ensures NoDuplicates(d)
    ensures forall x :: x in d <==> x in s
    decreases |s|
  {
    if s == [] then []
    else
      var prev := Distinct(s[..|s| - 1]);
      var last := s[|s| - 1];
      if last in prev then prev else prev + [last]
  }

  /** The distinct values appear in the order of their first occurrences. */
  lemma {:induction false} DistinctKeepsFirstOccurrenceOrder<T(!new)>(s: seq<T>)
    ensures forall i, j :: 0 <= i < j < |Distinct(s)| ==> IndexOf(s, Distinct(s)[i]) < IndexOf(s, Distinct(s)[j])
    decreases |s|
  {
    if s != [] {
      var p := s[..|s| - 1];
      var last := s[|s| - 1];
      var prev := Distinct(p);
      DistinctKeepsFirstOccurrenceOrder(p);
      assert s == p + [last];
      forall k | 0 <= k < |prev|
        ensures IndexOf(s, prev[k]) == IndexOf(p, prev[k]) < |p|
      {
        IndexOfPrefix(p, [last], prev[k]);
        IndexOfFirst(p, prev[k]);
      }
      if last !in prev {
        IndexOfAfter(p, last, []);
        assert p + [last] + [] == s;
      }
    }
  }

  function Talukas(records: seq<Record>): seq<string>
  {
    seq(|records|, i requires 0 <= i < |records| => records[i].taluka)
  }

  function Villages(records: seq<Record>): seq<string>
  {
    seq(|records|, i requires 0 <= i < |records| => records[i].village)
  }

  function Years(records: seq<Record>): seq<int>
  {
    seq(|records|, i requires 0 <= i < |records| => records[i].year)
  }

  predicate Descending(s: seq<int>)
  {
    forall i, j :: 0 <= i < j < |s| ==> s[i] >= s[j]
  }

  predicate StrictlyDescending(s: seq<int>)
  {
    forall i, j :: 0 <= i < j < |s| ==> s[i] > s[j]
  }

  /** Inserts `x` into a descending list before the first value not larger than it. */
  function InsertDescending(x: int, s: seq<int>): (r: seq<int>)
    requires Descending(s)
    ensures multiset(r) == multiset(s) + multiset{x}
    ensures Descending(r)
    ensures r[0] == x || (s != [] && r[0] == s[0])
    decreases |s|
  {
    if s == [] || x >= s[0] then [x] + s
    else
      var rest := InsertDescending(x, s[1..]);
      assert multiset(s) == multiset{s[0]} + multiset(s[1..]) by {
        assert s == [s[0]] + s[1..];
      }
      assert s[0] >= rest[0];
      [s[0]] + rest
  }

  /** `.sort((a, b) => b - a)`: the same values, largest first. */
  function SortDescending(s: seq<int>): (r: seq<int>)
    ensures multiset(r) == multiset(s)
    ensures Descending(r)
    decreases |s|
  {
    if s == [] then []
    else
      assert s == [s[0]] + s[1..];
      InsertDescending(s[0], SortDescending(s[1..]))
  }

  /** Inserting a new value into a strictly descending list keeps it strictly descending. */
  lemma {:induction false} InsertKeepsStrict(x: int, s: seq<int>)
    requires StrictlyDescending(s) && x !in s
    ensures StrictlyDescending(InsertDescending(x, s))
    decreases |s|
  {
    if s != [] && x < s[0] {
      InsertKeepsStrict(x, s[1..]);
    }
  }

  /** Sorting values without repeats gives a strictly descending list. */
  lemma {:induction false} SortDistinctIsStrict(s: seq<int>)
    requires NoDuplicates(s)
    ensures StrictlyDescending(SortDescending(s))
    decreases |s|
  {
    if s != [] {
      SortDistinctIsStrict(s[1..]);
      var tail := SortDescending(s[1..]);
      assert s[0] !in s[1..];
      assert s[0] !in multiset(tail);
      InsertKeepsStrict(s[0], tail);
    }
  }

  /** The taluka choices: each taluka of the records once. */
  function TalukaChoices(records: seq<Record>): (talukas: seq<string>)
    ensures NoDuplicates(talukas)
  {
    Distinct(Talukas(records))
  }

  /** The year choices: each year of the records once, newest first. */
  function YearChoices(records: seq<Record>): (years: seq<int>)
    ensures StrictlyDescending(years)
  {
    var d := Distinct(Years(records));
    SortDistinctIsStrict(d);
    SortDescending(d)
  }

  /**
   * The village choices for a selected taluka: with no taluka, every
   * village; otherwise the villages of the records in that taluka.
   */
  function VillageChoices(records: seq<Record>, selectedTaluka: string): (villages: seq<string>)
    ensures NoDuplicates(villages)
  {
    if selectedTaluka == "" then Distinct(Villages(records))
    else Distinct(Villages(Filter(records, NoCriteria.(taluka := selectedTaluka))))
  }

  /** The text value of each year's option. */
  function YearOptionValues(years: seq<int>): seq<string>
  {
    seq(|years|, i requires 0 <= i < |years| => ShowInt(years[i]))
  }

  lemma TalukasHave(records: seq<Record>, t: string)
    ensures t in Talukas(records) <==> exists r :: r in records && r.taluka == t
  {
    if exists r :: r in records && r.taluka == t {
      var r :| r in records && r.taluka == t;
      var i :| 0 <= i < |records| && records[i] == r;
      assert Talukas(records)[i] == t;
    }
  }

  lemma VillagesHave(records: seq<Record>, v: string)
    ensures v in Villages(records) <==> exists r :: r in records && r.village == v
  {
    if exists r :: r in records && r.village == v {
      var r :| r in records && r.village == v;
      var i :| 0 <= i < |records| && records[i] == r;
      assert Villages(records)[i] == v;
    }
  }

  lemma YearsHave(records: seq<Record>, y: int)
    ensures y in Years(records) <==> exists r :: r in records && r.year == y
  {
    if exists r :: r in records && r.year == y {
      var r :| r in records && r.year == y;
      var i :| 0 <= i < |records| && records[i] == r;
      assert Years(records)[i] == y;
    }
  }

  /** A taluka is offered exactly when some record is in it. */
  lemma TalukaChoicesSpec(records: seq<Record>, t: string)
    ensures t in TalukaChoices(records) <==> exists r :: r in records && r.taluka == t
  {
    TalukasHave(records, t);
  }

  /** A year is offered exactly when some record has it. */
  lemma YearChoicesSpec(records: seq<Record>, y: int)
    ensures y in YearChoices(records) <==> exists r :: r in records && r.year == y
  {
    var d := Distinct(Years(records));
    assert y in YearChoices(records) <==> y in multiset(d);
    YearsHave(records, y);
  }

  /** With a taluka selected, the records the village list draws on are exactly those in the taluka. */
  lemma TalukaRecords(records: seq<Record>, t: string, r: Record)
    requires t != ""
    ensures r in Filter(records, NoCriteria.(taluka := t)) <==> r in records && r.taluka == t
  {
    assert Lower("") == "";
    FilterMembership(records, NoCriteria.(taluka := t), r);
  }

  /**
   * A village is offered for a selected taluka exactly when some record
   * lies in that village and, if a taluka is selected, in that taluka.
   */
  lemma VillageChoicesSpec(records: seq<Record>, selectedTaluka: string, v: string)
    ensures v in VillageChoices(records, selectedTaluka) <==>
      exists r :: r in records && r.village == v && (selectedTaluka == "" || r.taluka == selectedTaluka)
  {
    if selectedTaluka == "" {
      VillagesHave(records, v);
    } else {
      var inTaluka := Filter(records, NoCriteria.(taluka := selectedTaluka));
      VillagesHave(inTaluka, v);
      forall r ensures r in inTaluka <==> r in records && r.taluka == selectedTaluka {
        TalukaRecords(records, selectedTaluka, r);
      }
    }
  }

  /** Choosing a taluka and then one of the villages offered for it finds at least one record. */
  lemma OfferedVillageFindsRecords(records: seq<Record>, t: string, v: string)
    requires t != "" && v in VillageChoices(records, t)
    ensures Filter(records, NoCriteria.(taluka := t, village := v)) != []
  {
    VillageChoicesSpec(records, t, v);
    var r :| r in records && r.village == v && r.taluka == t;
    assert Lower("") == "";
    FilterMembership(records, NoCriteria.(taluka := t, village := v), r);
  }

  /** Choosing any offered year finds at least one record. */
  lemma OfferedYearFindsRecords(records: seq<Record>, y: int)
    requires y in YearChoices(records)
    ensures Filter(records, NoCriteria.(year := ShowInt(y))) != []
  {
    YearChoicesSpec(records, y);
    var r :| r in records && r.year == y;
    YearNumeralMatches(r, y);
    assert Lower("") == "";
    FilterMembership(records, NoCriteria.(year := ShowInt(y)), r);
  }

  /** `values.forEach(v => select.appendChild(option(v)))`: the options, then one per value. */
  method AppendOptions(options: seq<string>, values: seq<string>) returns (r: seq<string>)
    ensures r == options + values
  {
    r := options;
    for i := 0 to |values|
      invariant r == options + values[..i]
    {
      r := r + [values[i]];
    }
    assert values[..|values|] == values;
  }

  /** The same for the year select, whose option values are the years' numerals. */
  method AppendYearOptions(options: seq<string>, years: seq<int>) returns (r: seq<string>)
    ensures r == options + YearOptionValues(years)
  {
    r := options;
    for i := 0 to |years|
      invariant r == options + YearOptionValues(years[..i])
    {
      assert YearOptionValues(years[..i + 1]) == YearOptionValues(years[..i]) + [ShowInt(years[i])];
      r := r + [ShowInt(years[i])];
    }
    assert years[..|years|] == years;
  }

  /**
   * The option values of the taluka, village and year selects, in display
   * order; the first option of each comes from the page markup.
   */
  class SearchForm {
    var talukaOptions: seq<string>
    var villageOptions: seq<string>
    var yearOptions: seq<string>

    /** `populateDropdowns()`: append the distinct talukas, villages and years (newest first). */
    method PopulateDropdowns(records: seq<Record>)
      modifies this
      ensures talukaOptions == old(talukaOptions) + TalukaChoices(records)
      ensures villageOptions == old(villageOptions) + Distinct(Villages(records))
      ensures yearOptions == old(yearOptions) + YearOptionValues(YearChoices(records))
    {
      talukaOptions := AppendOptions(talukaOptions, TalukaChoices(records));
      villageOptions := AppendOptions(villageOptions, Distinct(Villages(records)));
      yearOptions := AppendYearOptions(yearOptions, YearChoices(records));
    }

    /**
     * `updateVillages()`: remove every village option but the first, then
     * append the villages offered for the selected taluka.
     */
    method UpdateVillages(records: seq<Record>, selectedTaluka: string)
      modifies this`villageOptions
      ensures villageOptions == old(villageOptions)[..Min(1, |old(villageOptions)|)] + VillageChoices(records, selectedTaluka)
    {
      while |villageOptions| > 1
        invariant |villageOptions| <= |old(villageOptions)|
        invariant (villageOptions == []) == (old(villageOptions) == [])
        invariant villageOptions != [] ==> villageOptions[0] == old(villageOptions)[0]
        decreases |villageOptions|
      {
        villageOptions := villageOptions[..1] + villageOptions[2..];
      }
      assert villageOptions == old(villageOptions)[..Min(1, |old(villageOptions)|)];
      villageOptions := AppendOptions(villageOptions, VillageChoices(records, selectedTaluka));
    }
  }
}
