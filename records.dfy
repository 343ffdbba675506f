/**
 * The pure part of the record store in services/dataService.ts: building a record from
 * its input and the form storage keeps it in, the newest-first ordering `addRecord`
 * restores, and the list transformations behind `markAsSynced`, `deleteRecord` and the
 * unsynced snapshot.
 */
module Records {
  import opened Wrappers
  import opened Types
  import opened Seqs
  import opened Dates

  // ---------------------------------------------------------------- derived fields

  /**
   * The record `addRecord` builds (and pushes) for `input`; storage keeps it through
   * `Persisted`. It holds the input fields, the total feed, the
   * posture rate (eggs per bird, as a percentage; with no birds, the infinity or `NaN` that
   * JavaScript's division by zero gives), the loss rate (broken eggs per egg, as a
   * percentage, and 0 when no egg was collected) and an unsynced flag.
   */
  function NewRecord(input: RecordInput): (r: EggRecord)
    ensures r.id == input.id && r.date == input.date && r.birdCount == input.birdCount
    ensures r.totalEggs == input.totalEggs && r.brokenEggs == input.brokenEggs
    ensures r.feedAm == input.feedAm && r.feedPm == input.feedPm
    ensures r.responsible == input.responsible && r.notes == input.notes
    ensures r.totalFeed - input.feedPm == input.feedAm
    ensures input.birdCount != 0 ==>
      r.postureRate.Finite? && r.postureRate.value * (input.birdCount as real) == (input.totalEggs as real) * 100.0
    ensures input.birdCount == 0 ==>
      r.postureRate == (if input.totalEggs > 0 then PosInfinity else if input.totalEggs < 0 then NegInfinity else NaN)
    ensures input.totalEggs > 0 ==> r.lossRate * (input.totalEggs as real) == (input.brokenEggs as real) * 100.0
    ensures input.totalEggs <= 0 ==> r.lossRate == 0.0
    ensures !r.synced
  {
    var totalFeed := input.feedAm + input.feedPm;
    var postureRate :=
      if input.birdCount != 0 then Finite((input.totalEggs as real / input.birdCount as real) * 100.0)
      else if input.totalEggs > 0 then PosInfinity
      else if input.totalEggs < 0 then NegInfinity
      else NaN;
    var lossRate := if input.totalEggs > 0 then (input.brokenEggs as real / input.totalEggs as real) * 100.0 else 0.0;
    EggRecord(input.id, input.date, input.birdCount, input.totalEggs, input.brokenEggs,
              input.feedAm, input.feedPm, input.responsible, input.notes,
              postureRate, lossRate, totalFeed, false)
  }

  /** A ratio of `part` to a positive `whole`, scaled to a percentage, lies in [0, 100] when 0 <= part <= whole. */
  lemma PercentageBounds(rate: real, part: real, whole: real)
    requires whole > 0.0 && 0.0 <= part <= whole
    requires rate * whole == part * 100.0
    ensures 0.0 <= rate <= 100.0
  {
    assert rate == part * 100.0 / whole;
  }

  /** For plausible counts (no more eggs than birds, no more broken eggs than eggs) both rates are percentages. */
  lemma RatesArePercentages(input: RecordInput)
    requires input.birdCount > 0
    requires 0 <= input.brokenEggs <= input.totalEggs <= input.birdCount
    ensures NewRecord(input).postureRate.Finite? && 0.0 <= NewRecord(input).postureRate.value <= 100.0
    ensures 0.0 <= NewRecord(input).lossRate <= 100.0
  {
    var r := NewRecord(input);
    PercentageBounds(r.postureRate.value, input.totalEggs as real, input.birdCount as real);
    if input.totalEggs > 0 {
      PercentageBounds(r.lossRate, input.brokenEggs as real, input.totalEggs as real);
    }
  }

  /** The day of 100 birds, 90 eggs, 5 broken, 2.0 kg and 1.5 kg of feed. */
  lemma ExampleDay()
    ensures var r := NewRecord(RecordInput("r1", "2024-05-01", 100, 90, 5, 2.0, 1.5, "Ana", ""));
      r.totalFeed == 3.5 && r.postureRate == Finite(90.0) && r.lossRate == 50.0 / 9.0 && !r.synced
  {
  }

  // ---------------------------------------------------------------- newest-first order

  /** Every record is dated no later than the records before it. */
  predicate SortedByDateDesc(rs: seq<EggRecord>)
  {
    forall i, j :: 0 <= i < j < |rs| ==> LexLe(rs[j].date, rs[i].date)
  }

  /**
   * Inserts `x` into a newest-first list after every record dated the same day or later,
   * so that `x` follows the records it came after in the input.
   */
  function InsertByDate(x: EggRecord, rs: seq<EggRecord>): seq<EggRecord>
  {
    if rs == [] then [x]
    else if LexLe(x.date, rs[0].date) then [rs[0]] + InsertByDate(x, rs[1..])
    else [x] + rs
  }

  /**
   * The order `records.sort((a, b) => date(b) - date(a))` produces: newest first, and,
   * since that sort is stable, records of the same date in the order they had.
   */
  function SortByDateDesc(rs: seq<EggRecord>): seq<EggRecord>
  {
    if rs == [] then [] else InsertByDate(rs[|rs| - 1], SortByDateDesc(rs[..|rs| - 1]))
  }

  lemma {:induction false} InsertByDatePermutes(x: EggRecord, rs: seq<EggRecord>)
    ensures multiset(InsertByDate(x, rs)) == multiset(rs) + multiset{x}
  {
    if rs != [] && LexLe(x.date, rs[0].date) {
      InsertByDatePermutes(x, rs[1..]);
      assert rs == [rs[0]] + rs[1..];
    }
  }

  /** Sorting neither loses nor duplicates a record. */
  lemma {:induction false} SortByDateDescPermutes(rs: seq<EggRecord>)
    ensures multiset(SortByDateDesc(rs)) == multiset(rs)
  {
    if rs != [] {
      var init, last := rs[..|rs| - 1], rs[|rs| - 1];
      SortByDateDescPermutes(init);
      InsertByDatePermutes(last, SortByDateDesc(init));
      assert rs == init + [last];
    }
  }

  lemma SortedTail(rs: seq<EggRecord>)
    requires rs != [] && SortedByDateDesc(rs)
    ensures SortedByDateDesc(rs[1..])
  {
    forall i, j | 0 <= i < j < |rs| - 1 ensures LexLe(rs[1..][j].date, rs[1..][i].date) {
      assert rs[1..][j] == rs[j + 1] && rs[1..][i] == rs[i + 1];
    }
  }

  /** A record not older than the head of a newest-first list can go in front of it. */
  lemma SortedCons(x: EggRecord, rs: seq<EggRecord>)
    requires SortedByDateDesc(rs)
    requires forall k :: 0 <= k < |rs| ==> LexLe(rs[k].date, x.date)
    ensures SortedByDateDesc([x] + rs)
  {
    forall i, j | 0 <= i < j < |rs| + 1 ensures LexLe(([x] + rs)[j].date, ([x] + rs)[i].date) {
      assert ([x] + rs)[j] == rs[j - 1];
      if i > 0 {
        assert ([x] + rs)[i] == rs[i - 1];
      }
    }
  }

  lemma {:induction false} InsertByDateSorted(x: EggRecord, rs: seq<EggRecord>)
    requires SortedByDateDesc(rs)
    ensures SortedByDateDesc(InsertByDate(x, rs))
  {
    if rs == [] {
    } else if LexLe(x.date, rs[0].date) {
      var tail := InsertByDate(x, rs[1..]);
      SortedTail(rs);
      InsertByDateSorted(x, rs[1..]);
      InsertByDatePermutes(x, rs[1..]);
      forall k | 0 <= k < |tail| ensures LexLe(tail[k].date, rs[0].date) {
        assert tail[k] in multiset(tail);
        if tail[k] != x {
          assert tail[k] in multiset(rs[1..]);
          var m :| 0 <= m < |rs[1..]| && rs[1..][m] == tail[k];
          assert rs[m + 1] == tail[k];
        }
      }
      SortedCons(rs[0], tail);
    } else {
      LexLeTotal(x.date, rs[0].date);
      forall k | 0 <= k < |rs| ensures LexLe(rs[k].date, x.date) {
        if k > 0 {
          LexLeTransitive(rs[k].date, rs[0].date, x.date);
        }
      }
      SortedCons(x, rs);
    }
  }

  /** The stored list is newest first whatever order the records arrived in. */
  lemma {:induction false} SortByDateDescSorted(rs: seq<EggRecord>)
    ensures SortedByDateDesc(SortByDateDesc(rs))
  {
    if rs != [] {
      SortByDateDescSorted(rs[..|rs| - 1]);
      InsertByDateSorted(rs[|rs| - 1], SortByDateDesc(rs[..|rs| - 1]));
    }
  }

  /** The records dated `d`, in list order. */
  function OnDate(rs: seq<EggRecord>, d: string): seq<EggRecord>
  {
    if rs == [] then [] else (if rs[0].date == d then [rs[0]] else []) + OnDate(rs[1..], d)
  }

  lemma {:induction false} OnDateAppend(rs: seq<EggRecord>, x: EggRecord, d: string)
    ensures OnDate(rs + [x], d) == OnDate(rs, d) + (if x.date == d then [x] else [])
  {
    if rs == [] {
      assert rs + [x] == [x];
    } else {
      var head := if rs[0].date == d then [rs[0]] else [];
      var last := if x.date == d then [x] else [];
      assert (rs + [x])[0] == rs[0] && (rs + [x])[1..] == rs[1..] + [x];
      OnDateAppend(rs[1..], x, d);
      assert OnDate(rs + [x], d) == head + (OnDate(rs[1..], d) + last);
      ConcatAssoc(head, OnDate(rs[1..], d), last);
    }
  }

  lemma {:induction false} OnDateNone(rs: seq<EggRecord>, d: string)
    requires forall k :: 0 <= k < |rs| ==> rs[k].date != d
    ensures OnDate(rs, d) == []
  {
    if rs != [] {
      OnDateNone(rs[1..], d);
    }
  }

  lemma OnDateCons(x: EggRecord, rs: seq<EggRecord>, d: string)
    ensures OnDate([x] + rs, d) == (if x.date == d then [x] else []) + OnDate(rs, d)
  {
    assert ([x] + rs)[1..] == rs;
  }

  /** In a newest-first list whose head is older than `x`, no record shares `x`'s date. */
  lemma OlderThanHead(x: EggRecord, rs: seq<EggRecord>)
    requires SortedByDateDesc(rs) && rs != [] && !LexLe(x.date, rs[0].date)
    ensures forall k :: 0 <= k < |rs| ==> rs[k].date != x.date
  {
    forall k | 0 <= k < |rs| ensures rs[k].date != x.date {
      if k == 0 {
        LexLeReflexive(x.date);
      } else {
        assert LexLe(rs[k].date, rs[0].date);
      }
    }
  }

  /** Inserting `x` in front of older records adds it to the records of its own date only. */
  lemma InsertInFrontOnDate(x: EggRecord, rs: seq<EggRecord>, d: string)
    requires SortedByDateDesc(rs) && rs != [] && !LexLe(x.date, rs[0].date)
    ensures OnDate(InsertByDate(x, rs), d) == OnDate(rs, d) + (if x.date == d then [x] else [])
  {
    assert InsertByDate(x, rs) == [x] + rs;
    OnDateCons(x, rs, d);
    if x.date == d {
      OlderThanHead(x, rs);
      OnDateNone(rs, d);
    }
  }

  /** Inserting `x` behind the head: the head keeps its place in front of its date's records. */
  lemma InsertBehindHeadOnDate(x: EggRecord, rs: seq<EggRecord>, d: string)
    requires rs != [] && LexLe(x.date, rs[0].date)
    requires OnDate(InsertByDate(x, rs[1..]), d) == OnDate(rs[1..], d) + (if x.date == d then [x] else [])
    ensures OnDate(InsertByDate(x, rs), d) == OnDate(rs, d) + (if x.date == d then [x] else [])
  {
    var head, rest := rs[0], rs[1..];
    var tail := InsertByDate(x, rest);
    var forHead := if head.date == d then [head] else [];
    var forX := if x.date == d then [x] else [];
    assert InsertByDate(x, rs) == [head] + tail;
    OnDateCons(head, tail, d);
    assert [head] + rest == rs;
    OnDateCons(head, rest, d);
    ConcatAssoc(forHead, OnDate(rest, d), forX);
  }

  lemma {:induction false} InsertByDateOnDate(x: EggRecord, rs: seq<EggRecord>, d: string)
    requires SortedByDateDesc(rs)
    ensures OnDate(InsertByDate(x, rs), d) == OnDate(rs, d) + (if x.date == d then [x] else [])
  {
    if rs == [] {
      OnDateCons(x, [], d);
    } else if LexLe(x.date, rs[0].date) {
      SortedTail(rs);
      InsertByDateOnDate(x, rs[1..], d);
      InsertBehindHeadOnDate(x, rs, d);
    } else {
      InsertInFrontOnDate(x, rs, d);
    }
  }

  /** The sort is stable: for every date, the records of that date keep their relative order. */
  lemma {:induction false} SortByDateDescStable(rs: seq<EggRecord>, d: string)
    ensures OnDate(SortByDateDesc(rs), d) == OnDate(rs, d)
  {
    if rs != [] {
      var init, last := rs[..|rs| - 1], rs[|rs| - 1];
      assert SortByDateDesc(rs) == InsertByDate(last, SortByDateDesc(init));
      SortByDateDescStable(init, d);
      SortByDateDescSorted(init);
      InsertByDateOnDate(last, SortByDateDesc(init), d);
      assert rs == init + [last];
      OnDateAppend(init, last, d);
    }
  }

  /** Every element of a subsequence occurs in the sequence it was taken from. */
  lemma {:induction false} SubsequenceMembers(a: seq<EggRecord>, b: seq<EggRecord>)
    requires IsSubsequence(a, b)
    ensures forall i :: 0 <= i < |a| ==> a[i] in b
  {
    if a != [] && b != [] {
      if a[0] == b[0] {
        SubsequenceMembers(a[1..], b[1..]);
        forall i | 1 <= i < |a| ensures a[i] in b {
          assert a[i] == a[1..][i - 1];
        }
      } else {
        SubsequenceMembers(a, b[1..]);
      }
    }
  }

  /** Dropping records from a newest-first list leaves it newest first. */
  lemma {:induction false} SubsequenceSorted(a: seq<EggRecord>, b: seq<EggRecord>)
    requires IsSubsequence(a, b) && SortedByDateDesc(b)
    ensures SortedByDateDesc(a)
  {
    if a != [] && b != [] {
      assert SortedByDateDesc(b[1..]);
      if a[0] == b[0] {
        SubsequenceSorted(a[1..], b[1..]);
        SubsequenceMembers(a[1..], b[1..]);
        forall i, j | 0 <= i < j < |a| ensures LexLe(a[j].date, a[i].date) {
          if i > 0 {
            assert a[i] == a[1..][i - 1] && a[j] == a[1..][j - 1];
          } else {
            assert a[j] == a[1..][j - 1];
            var m :| 0 <= m < |b[1..]| && b[1..][m] == a[j];
            assert b[m + 1] == a[j];
          }
        }
      } else {
        SubsequenceSorted(a, b[1..]);
      }
    }
  }

  // ---------------------------------------------------------------- sync flags

  /** `findIndex(r => r.id === id)`: the position of the first record with `id`, if any. */
  function FirstIndexOf(rs: seq<EggRecord>, id: string): (k: Option<nat>)
    ensures k.Some? ==> k.value < |rs| && rs[k.value].id == id && forall j :: 0 <= j < k.value ==> rs[j].id != id
    ensures k.None? ==> forall j :: 0 <= j < |rs| ==> rs[j].id != id
  {
    if rs == [] then None
    else if rs[0].id == id then Some(0)
    else match FirstIndexOf(rs[1..], id)
      case None => None
      case Some(k) => Some(k + 1)
  }

  /** `b` is the record `a`, its sync flag possibly turned on. */
  predicate SyncedVersion(a: EggRecord, b: EggRecord)
  {
    b == a.(synced := b.synced) && (a.synced ==> b.synced)
  }

  /** `after` is `before` with some sync flags turned on and nothing else changed. */
  predicate OnlySyncFlagsRaised(before: seq<EggRecord>, after: seq<EggRecord>)
  {
    |before| == |after| && forall i :: 0 <= i < |before| ==> SyncedVersion(before[i], after[i])
  }

  lemma OnlySyncFlagsRaisedTransitive(a: seq<EggRecord>, b: seq<EggRecord>, c: seq<EggRecord>)
    requires OnlySyncFlagsRaised(a, b) && OnlySyncFlagsRaised(b, c)
    ensures OnlySyncFlagsRaised(a, c)
  {
  }

  /** Raising sync flags leaves every date, and therefore the newest-first order, as it was. */
  lemma OnlySyncFlagsRaisedKeepsOrder(before: seq<EggRecord>, after: seq<EggRecord>)
    requires OnlySyncFlagsRaised(before, after) && SortedByDateDesc(before)
    ensures SortedByDateDesc(after)
  {
    forall i, j | 0 <= i < j < |after| ensures LexLe(after[j].date, after[i].date) {
      assert after[i].date == before[i].date && after[j].date == before[j].date;
    }
  }

  lemma {:induction false} OnlySyncFlagsRaisedKeepsIds(before: seq<EggRecord>, after: seq<EggRecord>, id: string)
    requires OnlySyncFlagsRaised(before, after)
    ensures FirstIndexOf(after, id) == FirstIndexOf(before, id)
  {
    if before != [] {
      assert before[0].id == after[0].id;
      OnlySyncFlagsRaisedKeepsIds(before[1..], after[1..], id);
    }
  }

  /**
   * `markAsSynced(id)` on the stored list: the first record with `id` becomes synced, every
   * other record is left alone, and a missing id changes nothing.
   */
  function MarkFirstSynced(rs: seq<EggRecord>, id: string): (r: seq<EggRecord>)
    ensures OnlySyncFlagsRaised(rs, r)
    ensures FirstIndexOf(rs, id).Some? ==> r[FirstIndexOf(rs, id).value].synced
    ensures forall i :: 0 <= i < |rs| && Some(i) != FirstIndexOf(rs, id) ==> r[i] == rs[i]
  {
    match FirstIndexOf(rs, id)
    case None => rs
    case Some(k) => rs[k := rs[k].(synced := true)]
  }

  /** Marking the same id twice leaves the list as marking it once. */
  lemma MarkFirstSyncedIdempotent(rs: seq<EggRecord>, id: string)
    ensures MarkFirstSynced(MarkFirstSynced(rs, id), id) == MarkFirstSynced(rs, id)
  {
    var once := MarkFirstSynced(rs, id);
    OnlySyncFlagsRaisedKeepsIds(rs, once, id);
  }

  /** No two records share an id (the source draws ids at random and relies on this). */
  predicate UniqueIds(rs: seq<EggRecord>)
  {
    forall i, j :: 0 <= i < |rs| && 0 <= j < |rs| && i != j ==> rs[i].id != rs[j].id
  }

  /** With unique ids, marking `id` syncs exactly the record carrying it. */
  lemma MarkFirstSyncedUnique(rs: seq<EggRecord>, id: string)
    requires UniqueIds(rs)
    ensures forall i :: 0 <= i < |rs| ==> (MarkFirstSynced(rs, id)[i].synced <==> rs[i].synced || rs[i].id == id)
  {
  }

  /** The list after marking each id of `ids` in turn, as a run of `markAsSynced` calls leaves it. */
  function MarkAllSynced(rs: seq<EggRecord>, ids: seq<string>): (r: seq<EggRecord>)
    ensures OnlySyncFlagsRaised(rs, r)
  {
    if ids == [] then rs
    else
      var before := MarkAllSynced(rs, ids[..|ids| - 1]);
      OnlySyncFlagsRaisedTransitive(rs, before, MarkFirstSynced(before, ids[|ids| - 1]));
      MarkFirstSynced(before, ids[|ids| - 1])
  }

  /** With unique ids, a record ends up synced exactly when it was synced already or its id was marked. */
  lemma {:induction false} MarkAllSyncedUnique(rs: seq<EggRecord>, ids: seq<string>)
    requires UniqueIds(rs)
    ensures forall i :: 0 <= i < |rs| ==> (MarkAllSynced(rs, ids)[i].synced <==> rs[i].synced || rs[i].id in ids)
  {
    if ids != [] {
      var init, last := ids[..|ids| - 1], ids[|ids| - 1];
      MarkAllSyncedUnique(rs, init);
      var before := MarkAllSynced(rs, init);
      assert UniqueIds(before) by {
        forall i, j | 0 <= i < |before| && 0 <= j < |before| && i != j ensures before[i].id != before[j].id {
          assert before[i].id == rs[i].id && before[j].id == rs[j].id;
        }
      }
      MarkFirstSyncedUnique(before, last);
      assert ids == init + [last];
      forall i | 0 <= i < |rs| ensures rs[i].id in ids <==> rs[i].id in init || rs[i].id == last {
      }
      forall i | 0 <= i < |rs| ensures before[i].id == rs[i].id {
      }
    }
  }

  // ---------------------------------------------------------------- filters over the list

  /** The filter predicate of `deleteRecord(id)`. */
  function OtherId(id: string): EggRecord -> bool
  {
    (x: EggRecord) => x.id != id
  }

  /** `deleteRecord(id)` on the stored list: every record with `id` goes, the rest keep their order. */
  function WithoutRecord(rs: seq<EggRecord>, id: string): (r: seq<EggRecord>)
    ensures forall i :: 0 <= i < |r| ==> r[i].id != id && r[i] in rs
    ensures forall i :: 0 <= i < |rs| && rs[i].id != id ==> rs[i] in r
    ensures IsSubsequence(r, rs)
  {
    FilterIsSubsequence(rs, OtherId(id));
    Filter(rs, OtherId(id))
  }

  /** Deleting keeps every copy of the other records, and deleting an absent id changes nothing. */
  lemma WithoutRecordCounts(rs: seq<EggRecord>, id: string)
    ensures forall x :: multiset(WithoutRecord(rs, id))[x] == if x.id != id then multiset(rs)[x] else 0
    ensures (forall i :: 0 <= i < |rs| ==> rs[i].id != id) ==> WithoutRecord(rs, id) == rs
  {
    forall x ensures multiset(WithoutRecord(rs, id))[x] == if x.id != id then multiset(rs)[x] else 0 {
      FilterCount(rs, OtherId(id), x);
    }
    if forall i :: 0 <= i < |rs| ==> rs[i].id != id {
      FilterKeepsAll(rs, OtherId(id));
    }
  }

  /** The filter predicate of the unsynced snapshot. */
  predicate NotSynced(x: EggRecord)
  {
    !x.synced
  }

  /**
   * `records.filter(r => !r.synced)`: the snapshot `syncAllRecords` works through, holding
   * every copy of each unsynced record and nothing else, in list order.
   */
  function Unsynced(rs: seq<EggRecord>): (r: seq<EggRecord>)
    ensures forall i :: 0 <= i < |r| ==> !r[i].synced && r[i] in rs
    ensures forall i :: 0 <= i < |rs| && !rs[i].synced ==> rs[i] in r
    ensures forall x :: multiset(r)[x] == if x.synced then 0 else multiset(rs)[x]
    ensures IsSubsequence(r, rs)
  {
    FilterIsSubsequence(rs, NotSynced);
    FilterCounts(rs, NotSynced);
    Filter(rs, NotSynced)
  }

  // ---------------------------------------------------------------- storage

  /**
   * A record as it reads back from storage: `JSON.stringify` writes a non-finite posture
   * rate as `null`; every other field is a string, an integer, a finite real or a flag and
   * survives unchanged.
   */
  function Persisted(r: EggRecord): (p: EggRecord)
    ensures p.postureRate.Finite? || p.postureRate.JsonNull?
    ensures r.postureRate.Finite? ==> p == r
    ensures !r.postureRate.Finite? ==> p == r.(postureRate := JsonNull)
  {
    if r.postureRate.Finite? then r else r.(postureRate := JsonNull)
  }

  /** Storing a record that was read back from storage changes nothing more. */
  lemma PersistedIdempotent(r: EggRecord)
    ensures Persisted(Persisted(r)) == Persisted(r)
  {
  }

  /** A record entered with no birds reads back with a `null` posture rate; any other one reads back as it was built. */
  lemma PersistedNewRecord(input: RecordInput)
    ensures input.birdCount == 0 <==> Persisted(NewRecord(input)).postureRate == JsonNull
    ensures input.birdCount != 0 ==> Persisted(NewRecord(input)) == NewRecord(input)
  {
  }
}
