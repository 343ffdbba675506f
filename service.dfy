/**
 * `DataService` of services/dataService.ts. Each storage key is a field holding the whole
 * document (read and written whole, as the source does through `localStorage`), and the
 * rows sent to the remote table are kept, in order, in `pushed`. The remote's answers are
 * parameters: one `Response` for the push `addRecord` may make, and `remote(k)` for the
 * request a `syncAllRecords` run makes for the k-th record of its snapshot.
 */
module Service {
  import opened Wrappers
  import opened Types
  import opened Records
  import opened Remote
  import opened Sync
  import opened Users
  import opened Seqs

  class DataService {
    /**
     * The `agro_geral_records` document as `getRecords` reads it back; a missing document
     * reads as the empty list.
     */
    var records: seq<EggRecord>
    /** The `agro_geral_users` document, `None` until it is first written. */
    var users: Option<seq<User>>
    /** The `agro_geral_appsheet` document, `None` until a configuration is saved. */
    var config: Option<AppSheetConfig>
    /** Every row sent to the remote table, in the order the requests were made. */
    var pushed: seq<EggRecord>

    /** Empty storage, and nothing sent yet. */
    constructor ()
      ensures records == [] && users == None && config == None && pushed == []
    {
      records, users, config, pushed := [], None, None, [];
    }

    /** The saved configuration, or else the default: no credentials, table "Records", pushing enabled. */
    function GetAppSheetConfig(): (c: AppSheetConfig)
      reads this
      ensures config.Some? ==> c == config.value
      ensures config.None? ==> c.tableName == "Records" && c.isEnabled && c.appId == "" && c.accessKey == ""
    {
      if config.Some? then config.value else DefaultConfig
    }

    /** `setAppSheetConfig`: the configuration document is replaced whole. */
    method SetAppSheetConfig(c: AppSheetConfig)
      modifies this`config
      ensures config == Some(c) && GetAppSheetConfig() == c
    {
      config := Some(c);
    }

    /** The user table a read returns: the stored one, or the seed when there is none. */
    function StoredUsers(): seq<User>
      reads this
    {
      if users.None? then SeedUsers else users.value
    }

    /**
     * `getUsers`: a first read on storage without a user document writes and returns the two
     * seeded administrators; a stored table, even an empty one, is returned as it is.
     */
    method GetUsers() returns (us: seq<User>)
      modifies this`users
      ensures old(users).None? ==> us == SeedUsers && users == Some(SeedUsers)
      ensures old(users).Some? ==> us == old(users).value && users == old(users)
    {
      if users.None? {
        users := Some(SeedUsers);
      }
      us := users.value;
    }

    /** `saveUser(u)`: replaces the first user with `u`'s id, or appends `u`. */
    method SaveUser(u: User)
      modifies this`users
      ensures users == Some(UpsertUser(old(StoredUsers()), u))
    {
      var us := GetUsers();
      var index := FindUserIndex(us, u.id);
      if index.Some? {
        us := us[index.value := u];
      } else {
        us := us + [u];
      }
      users := Some(us);
    }

    /**
     * `deleteUser(id)`: refuses the two protected administrators without touching storage;
     * otherwise writes the table without `id` and reports success.
     */
    method DeleteUser(id: string) returns (deleted: bool)
      modifies this`users
      ensures deleted <==> !IsProtected(id)
      ensures !deleted ==> users == old(users)
      ensures deleted ==> users == Some(WithoutUser(old(StoredUsers()), id))
    {
      if id == "admin-0" || id == "admin-tiago" {
        return false;
      }
      var us := GetUsers();
      users := Some(WithoutUser(us, id));
      deleted := true;
    }

    /**
     * `addRecord(input)`: stores the derived record, unsynced, in newest-first order (as
     * storage writes it, so a non-finite posture rate is stored as `null`); then, when the
     * configuration enables pushing and holds both credentials, sends the record as built
     * once and marks it synced if the remote (answering `response`) accepts it. A rejected
     * push is swallowed: the record stays stored and unsynced.
     */
    method AddRecord(input: RecordInput, response: Response)
      modifies this`records, this`pushed
      ensures var stored := SortByDateDesc(old(records) + [Persisted(NewRecord(input))]);
        && (AutoPushEnabled(GetAppSheetConfig()) ==> pushed == old(pushed) + [NewRecord(input)])
        && (!AutoPushEnabled(GetAppSheetConfig()) ==> pushed == old(pushed))
        && (AutoPushEnabled(GetAppSheetConfig()) && Classify(response).Accepted? ==> records == MarkFirstSynced(stored, input.id))
        && (!AutoPushEnabled(GetAppSheetConfig()) || Classify(response).Rejected? ==> records == stored)
      ensures SortedByDateDesc(records)
    {
      var fullRecord := NewRecord(input);
      var rs := records + [Persisted(fullRecord)];
      rs := SortByDateDesc(rs);
      records := rs;
      SortByDateDescSorted(old(records) + [Persisted(fullRecord)]);

      var cfg := GetAppSheetConfig();
      if cfg.isEnabled && cfg.appId != "" && cfg.accessKey != "" {
        var accepted := PushAndMark(fullRecord, response);
        if accepted {
          OnlySyncFlagsRaisedKeepsOrder(rs, records);
        }
      }
    }

    /**
     * The `try` block both `addRecord` and `syncAllRecords` run for one record: build its row
     * (which throws, before any request, when the posture rate is `null`), send it to the
     * remote table and, if the remote (answering `response`) accepts it, mark its id synced.
     * Any failure is caught and leaves the records as they were.
     */
    method PushAndMark(record: EggRecord, response: Response) returns (accepted: bool)
      modifies this`records, this`pushed
      ensures accepted <==> PushSucceeds(record, response)
      ensures pushed == old(pushed) + if RowBuildable(record) then [record] else []
      ensures records == if accepted then MarkFirstSynced(old(records), record.id) else old(records)
    {
      accepted := false;
      if RowBuildable(record) {
        pushed := pushed + [record];
        accepted := Classify(response).Accepted?;
      }
      if accepted {
        MarkAsSynced(record.id);
      }
    }

    /** `markAsSynced(id)`: the first record with `id`, if any, becomes synced; nothing else changes. */
    method MarkAsSynced(id: string)
      modifies this`records
      ensures records == MarkFirstSynced(old(records), id)
      ensures SortedByDateDesc(old(records)) ==> SortedByDateDesc(records)
    {
      var idx := FirstIndexOf(records, id);
      if idx.Some? {
        records := records[idx.value := records[idx.value].(synced := true)];
      }
      if SortedByDateDesc(old(records)) {
        OnlySyncFlagsRaisedKeepsOrder(old(records), records);
      }
    }

    /**
     * `syncAllRecords`: without both credentials, fails before any push and changes nothing
     * (the enabled flag is not consulted). Otherwise pushes, one after another, the records
     * that were unsynced when it started, marks each accepted one synced and counts
     * successes and failures; a record whose row cannot be built is sent nowhere and counts
     * as a failure.
     */
    method SyncAllRecords(remote: nat -> Response) returns (result: Result<SyncReport, SyncError>)
      modifies this`records, this`pushed
      ensures !HasCredentials(GetAppSheetConfig()) ==>
        result == Err(MissingCredentials) && records == old(records) && pushed == old(pushed)
      ensures HasCredentials(GetAppSheetConfig()) ==>
        var snapshot := Unsynced(old(records));
        && result.Ok?
        && result.value.success + result.value.failed == |snapshot|
        && result.value.success == |AcceptedIds(snapshot, remote, |snapshot|)|
        && result.value.failed == RejectedCount(snapshot, remote, |snapshot|)
        && pushed == old(pushed) + Filter(snapshot, RowBuildable)
        && records == AfterSync(old(records), remote)
        && (SortedByDateDesc(old(records)) ==> SortedByDateDesc(records))
    {
      var cfg := GetAppSheetConfig();
      if cfg.appId == "" || cfg.accessKey == "" {
        return Err(MissingCredentials);
      }
      var toSync := Unsynced(records);
      ghost var records0, pushed0 := records, pushed;
      var success, failed := 0, 0;
      for i := 0 to |toSync|
        invariant SyncProgress(records0, pushed0, toSync, remote, i, records, pushed, success, failed)
      {
        SyncProgressStep(records0, pushed0, toSync, remote, i, records, pushed, success, failed);
        var accepted := PushAndMark(toSync[i], remote(i));
        if accepted {
          success := success + 1;
        } else {
          failed := failed + 1;
        }
      }
      assert toSync[..|toSync|] == toSync;
      CountsAddUp(toSync, remote, |toSync|);
      SyncOnlyRaisesFlags(records0, remote);
      result := Ok(SyncReport(success, failed));
    }

    /** `deleteRecord(id)`: every record with `id` is removed and the rest keep their order. */
    method DeleteRecord(id: string)
      modifies this`records
      ensures records == WithoutRecord(old(records), id)
      ensures SortedByDateDesc(old(records)) ==> SortedByDateDesc(records)
    {
      records := WithoutRecord(records, id);
      if SortedByDateDesc(old(records)) {
        SubsequenceSorted(records, old(records));
      }
    }
  }
}
