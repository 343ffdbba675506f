/** The entities of types.ts: users, the remote-table configuration and egg-production records. */
module Types {
  import opened Wrappers

  /** The role of a user, `UserRole` in types.ts: `ADMIN` or the ordinary `USER`. */
  datatype UserRole = Admin | Regular

  /** A login account. The password is optional, as in the source's interface. */
  datatype User = User(id: string, username: string, password: Option<string>, name: string, role: UserRole)

  /** Where records are pushed: the remote application, its access key, the table, and whether new records are pushed automatically. */
  datatype AppSheetConfig = AppSheetConfig(appId: string, accessKey: string, tableName: string, isEnabled: bool)

  /**
   * The fields a caller supplies when adding a record: an `EggRecord` without its three
   * derived fields. Counts are integers (the form parses them with `parseInt`), feed
   * weights are decimal kilograms.
   */
  datatype RecordInput = RecordInput(
    id: string,
    date: string,
    birdCount: int,
    totalEggs: int,
    brokenEggs: int,
    feedAm: real,
    feedPm: real,
    responsible: string,
    notes: string)

  /**
   * A JavaScript number produced by a division: a finite value, or what dividing a non-zero
   * amount (an infinity) or zero (`NaN`) by zero gives; `JsonNull` is what a non-finite
   * number reads back as once `JSON.stringify` has stored it.
   */
  datatype Number = Finite(value: real) | PosInfinity | NegInfinity | NaN | JsonNull

  /** One stored day of production: the input fields, the derived rates and the sync flag. */
  datatype EggRecord = EggRecord(
    id: string,
    date: string,
    birdCount: int,
    totalEggs: int,
    brokenEggs: int,
    feedAm: real,
    feedPm: real,
    responsible: string,
    notes: string,
    postureRate: Number,
    lossRate: real,
    totalFeed: real,
    synced: bool)
}
