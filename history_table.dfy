/**
 * The history screen: the list of records narrowed by a search term and an optional date
 * window, and the date range printed on the exported report.
 */
module HistoryTable {
  import opened Types
  import opened Seqs
  import opened Dates
  import opened Records

  // ---------------------------------------------------------------- text search

  /** `toLowerCase` on one character, for the letters `A`-`Z`. */
  function LowerChar(c: char): (l: char)
    ensures 'A' <= c <= 'Z' ==> 'a' <= l <= 'z' && l as int - c as int == 32
    ensures !('A' <= c <= 'Z') ==> l == c
  {
    if 'A' <= c <= 'Z' then (c as int + 32) as char else c
  }

  /** `toLowerCase` on a string, character by character. */
  function Lower(s: string): (r: string)
    ensures |r| == |s|
    ensures forall i :: 0 <= i < |s| ==> r[i] == LowerChar(s[i])
  {
    if s == [] then [] else [LowerChar(s[0])] + Lower(s[1..])
  }

  /** Lower-casing twice is lower-casing once. */
  lemma LowerIdempotent(s: string)
    ensures Lower(Lower(s)) == Lower(s)
  {
    assert forall i :: 0 <= i < |s| ==> LowerChar(LowerChar(s[i])) == LowerChar(s[i]);
  }

  /** `sub` occurs in `s` starting at position `i`. */
  predicate OccursAt(s: string, sub: string, i: nat)
  {
    i + |sub| <= |s| && s[i..i + |sub|] == sub
  }

  /** `s.includes(sub)`: `sub` is a prefix of `s` or occurs in `s` after its first character. */
  predicate Contains(s: string, sub: string)
    decreases |s|
  {
    (|sub| <= |s| && s[..|sub|] == sub) || (s != [] && Contains(s[1..], sub))
  }

  /** `includes` holds exactly when `sub` occurs at some position of `s`. */
  lemma {:induction false} ContainsIffOccurs(s: string, sub: string)
    ensures Contains(s, sub) <==> exists i: nat :: OccursAt(s, sub, i)
    decreases |s|
  {
    if |sub| <= |s| && s[..|sub|] == sub {
      assert OccursAt(s, sub, 0);
    } else if s == [] {
      forall i: nat ensures !OccursAt(s, sub, i) {
      }
    } else {
      ContainsIffOccurs(s[1..], sub);
      if Contains(s[1..], sub) {
        var i: nat :| OccursAt(s[1..], sub, i);
        assert s[i + 1..i + 1 + |sub|] == s[1..][i..i + |sub|];
        assert OccursAt(s, sub, i + 1);
      } else {
        forall i: nat | OccursAt(s, sub, i) ensures false {
          if i != 0 {
            assert s[1..][i - 1..i - 1 + |sub|] == s[i..i + |sub|];
            assert OccursAt(s[1..], sub, i - 1);
          }
        }
      }
    }
  }

  // ---------------------------------------------------------------- the filter

  /**
   * `matchSearch`: the responsible person or the notes contain the search term, both sides
   * lower-cased.
   */
  predicate MatchesSearch(r: EggRecord, searchTerm: string)
  {
    Contains(Lower(r.responsible), Lower(searchTerm)) || Contains(Lower(r.notes), Lower(searchTerm))
  }

  /**
   * One record passes the history filter: it matches the search term, and its date is on or
   * after `startDate` and on or before `endDate`; an empty bound is no bound.
   */
  predicate MatchesFilter(r: EggRecord, searchTerm: string, startDate: string, endDate: string)
  {
    && MatchesSearch(r, searchTerm)
    && (startDate != "" ==> LexLe(startDate, r.date))
    && (endDate != "" ==> LexLe(r.date, endDate))
  }

  /** The filter as the function handed to `filter`. */
  function Matching(searchTerm: string, startDate: string, endDate: string): EggRecord -> bool
  {
    r => MatchesFilter(r, searchTerm, startDate, endDate)
  }

  /**
   * `filteredRecords`: the records that pass the filter, in the order of the list; every
   * record that passes is kept and every kept record passes.
   */
  function FilteredRecords(records: seq<EggRecord>, searchTerm: string, startDate: string, endDate: string)
    : (r: seq<EggRecord>)
    ensures IsSubsequence(r, records)
    ensures forall i :: 0 <= i < |r| ==> r[i] in records && MatchesFilter(r[i], searchTerm, startDate, endDate)
    ensures forall i :: 0 <= i < |records| && MatchesFilter(records[i], searchTerm, startDate, endDate) ==>
      records[i] in r
  {
    FilterIsSubsequence(records, Matching(searchTerm, startDate, endDate));
    Filter(records, Matching(searchTerm, startDate, endDate))
  }

  /** Each copy of a passing record is kept, and no copy of a failing one. */
  lemma FilteredRecordsCount(records: seq<EggRecord>, searchTerm: string, startDate: string, endDate: string, x: EggRecord)
    ensures multiset(FilteredRecords(records, searchTerm, startDate, endDate))[x] ==
      if MatchesFilter(x, searchTerm, startDate, endDate) then multiset(records)[x] else 0
  {
    FilterCount(records, Matching(searchTerm, startDate, endDate), x);
  }

  /** The search only looks at lower-cased text, so the case of the term does not matter. */
  lemma SearchIgnoresCase(r: EggRecord, searchTerm: string)
    ensures MatchesSearch(r, searchTerm) <==> MatchesSearch(r, Lower(searchTerm))
  {
    LowerIdempotent(searchTerm);
  }

  /** With an empty search box and no dates the whole list is shown, in its order. */
  lemma {:induction false} NoCriteriaShowsAll(records: seq<EggRecord>)
    ensures FilteredRecords(records, "", "", "") == records
  {
    forall i | 0 <= i < |records| ensures MatchesFilter(records[i], "", "", "") {
      assert Lower(records[i].responsible)[..0] == [];
    }
    FilterKeepsAll(records, Matching("", "", ""));
  }

  /** A newest-first list stays newest first when filtered. */
  lemma FilteredRecordsSorted(records: seq<EggRecord>, searchTerm: string, startDate: string, endDate: string)
    requires SortedByDateDesc(records)
    ensures SortedByDateDesc(FilteredRecords(records, searchTerm, startDate, endDate))
  {
    SubsequenceSorted(FilteredRecords(records, searchTerm, startDate, endDate), records);
  }

  // ---------------------------------------------------------------- export range

  /** The date range printed on the report. */
  datatype DateRange = DateRange(start: string, end: string)

  /**
   * `handleExport`: a bound the user chose is printed as chosen; a missing one is taken from
   * the list (its last record for the start, its first for the end), or `-` when it is empty.
   */
  function ExportRange(records: seq<EggRecord>, startDate: string, endDate: string): (range: DateRange)
    ensures startDate != "" ==> range.start == startDate
    ensures endDate != "" ==> range.end == endDate
    ensures records != [] && startDate == "" ==> range.start == records[|records| - 1].date
    ensures records != [] && endDate == "" ==> range.end == records[0].date
    ensures records == [] && startDate == "" ==> range.start == "-"
    ensures records == [] && endDate == "" ==> range.end == "-"
  {
    DateRange(
      if startDate != "" then startDate else if |records| > 0 then records[|records| - 1].date else "-",
      if endDate != "" then endDate else if |records| > 0 then records[0].date else "-")
  }

  /** In a newest-first list every record lies between the last record's date and the first's. */
  lemma BetweenEnds(records: seq<EggRecord>, j: nat)
    requires SortedByDateDesc(records) && j < |records|
    ensures LexLe(records[|records| - 1].date, records[j].date) && LexLe(records[j].date, records[0].date)
  {
    if j == |records| - 1 || j == 0 {
      LexLeReflexive(records[j].date);
    }
  }

  /**
   * For a non-empty newest-first list, every exported record is dated within the printed
   * range, whatever the filter.
   */
  lemma ExportRangeCoversReport(records: seq<EggRecord>, searchTerm: string, startDate: string, endDate: string)
    requires SortedByDateDesc(records) && records != []
    ensures var range := ExportRange(records, startDate, endDate);
      forall r :: r in FilteredRecords(records, searchTerm, startDate, endDate) ==>
        LexLe(range.start, r.date) && LexLe(r.date, range.end)
  {
    var range := ExportRange(records, startDate, endDate);
    var shown := FilteredRecords(records, searchTerm, startDate, endDate);
    forall r | r in shown ensures LexLe(range.start, r.date) && LexLe(r.date, range.end) {
      var k :| 0 <= k < |shown| && shown[k] == r;
      assert r in records && MatchesFilter(r, searchTerm, startDate, endDate);
      var j :| 0 <= j < |records| && records[j] == r;
      BetweenEnds(records, j);
    }
  }

  /**
   * Without date bounds the printed range of a non-empty newest-first list is tight: it runs
   * from the oldest record's date to the newest record's date.
   */
  lemma ExportRangeTight(records: seq<EggRecord>)
    requires SortedByDateDesc(records) && records != []
    ensures var range := ExportRange(records, "", "");
      && (exists i :: 0 <= i < |records| && records[i].date == range.start)
      && (exists i :: 0 <= i < |records| && records[i].date == range.end)
      && forall i :: 0 <= i < |records| ==> LexLe(range.start, records[i].date) && LexLe(records[i].date, range.end)
  {
    var range := ExportRange(records, "", "");
    assert records[|records| - 1].date == range.start;
    assert records[0].date == range.end;
    forall i | 0 <= i < |records| ensures LexLe(range.start, records[i].date) && LexLe(records[i].date, range.end) {
      if i == |records| - 1 || i == 0 {
        LexLeReflexive(records[i].date);
      }
    }
  }
}
