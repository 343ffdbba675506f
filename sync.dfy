/**
 * What a run of `syncAllRecords` over a snapshot of unsynced records does, as functions:
 * which pushes were accepted and what the stored list looks like afterwards.
 */
module Sync {
  import opened Types
  import opened Records
  import opened Remote
  import opened Seqs

  /** The counts `syncAllRecords` returns. */
  datatype SyncReport = SyncReport(success: nat, failed: nat)

  /** Why `syncAllRecords` refuses to start. */
  datatype SyncError = MissingCredentials

  /**
   * The ids of the first `n` snapshot records whose push succeeded, in push order. The
   * request for the k-th snapshot record, when its row can be built at all, is answered by
   * `remote(k)`.
   */
  function AcceptedIds(snapshot: seq<EggRecord>, remote: nat -> Response, n: nat): (ids: seq<string>)
    requires n <= |snapshot|
    ensures |ids| <= n
  {
    if n == 0 then []
    else AcceptedIds(snapshot, remote, n - 1) + (if PushSucceeds(snapshot[n - 1], remote(n - 1)) then [snapshot[n - 1].id] else [])
  }

  /** An id is among the accepted ones exactly when some successful push carried it. */
  lemma {:induction false} AcceptedIdsMembers(snapshot: seq<EggRecord>, remote: nat -> Response, n: nat)
    requires n <= |snapshot|
    ensures forall x :: x in AcceptedIds(snapshot, remote, n) <==>
      exists k :: 0 <= k < n && snapshot[k].id == x && PushSucceeds(snapshot[k], remote(k))
  {
    if n > 0 {
      AcceptedIdsMembers(snapshot, remote, n - 1);
    }
  }

  /**
   * One more record: it is counted as a success or a failure, and the stored list gains the
   * mark of its id exactly when its push succeeded.
   */
  lemma AfterOneMorePush(rs: seq<EggRecord>, snapshot: seq<EggRecord>, remote: nat -> Response, n: nat)
    requires n < |snapshot|
    ensures PushSucceeds(snapshot[n], remote(n)) ==>
      && |AcceptedIds(snapshot, remote, n + 1)| == |AcceptedIds(snapshot, remote, n)| + 1
      && RejectedCount(snapshot, remote, n + 1) == RejectedCount(snapshot, remote, n)
      && MarkAllSynced(rs, AcceptedIds(snapshot, remote, n + 1))
         == MarkFirstSynced(MarkAllSynced(rs, AcceptedIds(snapshot, remote, n)), snapshot[n].id)
    ensures !PushSucceeds(snapshot[n], remote(n)) ==>
      && AcceptedIds(snapshot, remote, n + 1) == AcceptedIds(snapshot, remote, n)
      && RejectedCount(snapshot, remote, n + 1) == RejectedCount(snapshot, remote, n) + 1
  {
    var ids := AcceptedIds(snapshot, remote, n);
    if PushSucceeds(snapshot[n], remote(n)) {
      assert AcceptedIds(snapshot, remote, n + 1) == ids + [snapshot[n].id];
      assert (ids + [snapshot[n].id])[..|ids|] == ids;
    }
  }

  /** How many of the first `n` snapshot records failed, before or after their request. */
  function RejectedCount(snapshot: seq<EggRecord>, remote: nat -> Response, n: nat): nat
    requires n <= |snapshot|
  {
    if n == 0 then 0
    else RejectedCount(snapshot, remote, n - 1) + (if PushSucceeds(snapshot[n - 1], remote(n - 1)) then 0 else 1)
  }

  /** Every snapshot record is counted once, as a success or as a failure. */
  lemma {:induction false} CountsAddUp(snapshot: seq<EggRecord>, remote: nat -> Response, n: nat)
    requires n <= |snapshot|
    ensures |AcceptedIds(snapshot, remote, n)| + RejectedCount(snapshot, remote, n) == n
  {
    if n > 0 {
      CountsAddUp(snapshot, remote, n - 1);
    }
  }

  /**
   * The state of a sync run after its first `n` snapshot records: the stored list carries the
   * marks of the successful ones, those of them whose row could be built have been sent, and
   * the counters agree.
   */
  ghost predicate SyncProgress(
    rs0: seq<EggRecord>, pushed0: seq<EggRecord>, snapshot: seq<EggRecord>, remote: nat -> Response, n: nat,
    rs: seq<EggRecord>, pushed: seq<EggRecord>, success: nat, failed: nat)
    requires n <= |snapshot|
  {
    && rs == MarkAllSynced(rs0, AcceptedIds(snapshot, remote, n))
    && pushed == pushed0 + Filter(snapshot[..n], RowBuildable)
    && success == |AcceptedIds(snapshot, remote, n)|
    && failed == RejectedCount(snapshot, remote, n)
  }

  /** One record's push, and the bookkeeping that follows it, takes a run from `n` records to `n + 1`. */
  lemma SyncProgressStep(
    rs0: seq<EggRecord>, pushed0: seq<EggRecord>, snapshot: seq<EggRecord>, remote: nat -> Response, n: nat,
    rs: seq<EggRecord>, pushed: seq<EggRecord>, success: nat, failed: nat)
    requires n < |snapshot|
    requires SyncProgress(rs0, pushed0, snapshot, remote, n, rs, pushed, success, failed)
    ensures var accepted := PushSucceeds(snapshot[n], remote(n));
      SyncProgress(rs0, pushed0, snapshot, remote, n + 1,
        if accepted then MarkFirstSynced(rs, snapshot[n].id) else rs,
        pushed + (if RowBuildable(snapshot[n]) then [snapshot[n]] else []),
        if accepted then success + 1 else success,
        if accepted then failed else failed + 1)
  {
    AfterOneMorePush(rs0, snapshot, remote, n);
    PrefixExtend(snapshot, n);
    FilterAppend(snapshot[..n], [snapshot[n]], RowBuildable);
    assert Filter([snapshot[n]], RowBuildable) == if RowBuildable(snapshot[n]) then [snapshot[n]] else [];
    ConcatAssoc(pushed0, Filter(snapshot[..n], RowBuildable), Filter([snapshot[n]], RowBuildable));
  }

  /** The stored list after a run that pushed `Unsynced(rs)` and was answered by `remote`. */
  function AfterSync(rs: seq<EggRecord>, remote: nat -> Response): (r: seq<EggRecord>)
    ensures OnlySyncFlagsRaised(rs, r)
  {
    var snapshot := Unsynced(rs);
    MarkAllSynced(rs, AcceptedIds(snapshot, remote, |snapshot|))
  }

  /**
   * A sync run only turns flags on: records that were synced are left exactly as they were,
   * and the list keeps its length and order.
   */
  lemma SyncOnlyRaisesFlags(rs: seq<EggRecord>, remote: nat -> Response)
    ensures |AfterSync(rs, remote)| == |rs|
    ensures forall i :: 0 <= i < |rs| && rs[i].synced ==> AfterSync(rs, remote)[i] == rs[i]
    ensures SortedByDateDesc(rs) ==> SortedByDateDesc(AfterSync(rs, remote))
  {
    var after := AfterSync(rs, remote);
    forall i | 0 <= i < |rs| && rs[i].synced ensures after[i] == rs[i] {
      assert after[i] == rs[i].(synced := true);
    }
    if SortedByDateDesc(rs) {
      OnlySyncFlagsRaisedKeepsOrder(rs, after);
    }
  }

  /** With unique ids, a snapshot entry carrying a record's id is that record. */
  lemma SnapshotIdIdentifies(rs: seq<EggRecord>)
    requires UniqueIds(rs)
    ensures forall i, k :: 0 <= i < |rs| && 0 <= k < |Unsynced(rs)| && Unsynced(rs)[k].id == rs[i].id ==>
      Unsynced(rs)[k] == rs[i]
  {
    var snapshot := Unsynced(rs);
    forall i, k | 0 <= i < |rs| && 0 <= k < |snapshot| && snapshot[k].id == rs[i].id ensures snapshot[k] == rs[i] {
      var j :| 0 <= j < |rs| && rs[j] == snapshot[k];
      assert rs[j].id == rs[i].id;
    }
  }

  /**
   * With unique ids, an unsynced record becomes synced exactly when its own push succeeded,
   * so one whose posture rate reads back as `null` is left exactly as it was.
   */
  lemma SyncMarksExactlySucceeded(rs: seq<EggRecord>, remote: nat -> Response)
    requires UniqueIds(rs)
    ensures forall i :: 0 <= i < |rs| && !rs[i].synced ==>
      (AfterSync(rs, remote)[i].synced <==>
         exists k :: 0 <= k < |Unsynced(rs)| && Unsynced(rs)[k] == rs[i] && PushSucceeds(rs[i], remote(k)))
    ensures forall i :: 0 <= i < |rs| && !RowBuildable(rs[i]) ==> AfterSync(rs, remote)[i] == rs[i]
  {
    var after := AfterSync(rs, remote);
    var snapshot := Unsynced(rs);
    var ids := AcceptedIds(snapshot, remote, |snapshot|);
    MarkAllSyncedUnique(rs, ids);
    AcceptedIdsMembers(snapshot, remote, |snapshot|);
    SnapshotIdIdentifies(rs);
    forall i | 0 <= i < |rs| && !rs[i].synced
      ensures after[i].synced <==> exists k :: 0 <= k < |snapshot| && snapshot[k] == rs[i] && PushSucceeds(rs[i], remote(k))
    {
      assert after[i].synced <==> rs[i].id in ids;
    }
    forall i | 0 <= i < |rs| && !RowBuildable(rs[i]) ensures after[i] == rs[i] {
      assert after[i] == rs[i].(synced := after[i].synced);
    }
  }

  /**
   * A record entered with no birds, once stored, is never synced by a run: its row cannot
   * be built, so it is counted as failed and left as it was.
   */
  lemma ZeroBirdRecordNeverBulkSynced(rs: seq<EggRecord>, remote: nat -> Response, input: RecordInput, i: nat)
    requires UniqueIds(rs) && i < |rs| && input.birdCount == 0 && rs[i] == Persisted(NewRecord(input))
    ensures AfterSync(rs, remote)[i] == rs[i] && !AfterSync(rs, remote)[i].synced
  {
    PersistedNewRecord(input);
    SyncMarksExactlySucceeded(rs, remote);
  }
}
