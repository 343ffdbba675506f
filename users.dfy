/** The user table of services/dataService.ts: the seeded administrators, upsert by id and delete by id. */
module Users {
  import opened Wrappers
  import opened Types
  import opened Seqs

  const DefaultAdmin := User("admin-0", "admin", Some("123"), "Administrador Geral", Admin)
  const TiagoAdmin := User("admin-tiago", "tiago", Some("123"), "Tiago", Admin)

  /** The table `getUsers` writes the first time it finds no user document. */
  const SeedUsers := [DefaultAdmin, TiagoAdmin]

  /** The ids `deleteUser` refuses to delete. */
  predicate IsProtected(id: string)
  {
    id == "admin-0" || id == "admin-tiago"
  }

  /** The seeded administrators are exactly the protected accounts, so they can never be deleted. */
  lemma SeedUsersAreProtected()
    ensures forall u :: u in SeedUsers ==> IsProtected(u.id)
    ensures forall id :: IsProtected(id) ==> exists u :: u in SeedUsers && u.id == id
  {
    assert DefaultAdmin in SeedUsers && TiagoAdmin in SeedUsers;
  }

  /** `users.findIndex(u => u.id === id)`: the position of the first user with `id`, if any. */
  function FindUserIndex(us: seq<User>, id: string): (k: Option<nat>)
    ensures k.Some? ==> k.value < |us| && us[k.value].id == id && forall j :: 0 <= j < k.value ==> us[j].id != id
    ensures k.None? ==> forall j :: 0 <= j < |us| ==> us[j].id != id
  {
    if us == [] then None
    else if us[0].id == id then Some(0)
    else match FindUserIndex(us[1..], id)
      case None => None
      case Some(k) => Some(k + 1)
  }

  /**
   * The table `saveUser(u)` writes: `u` takes the place of the first user with its id, or is
   * appended when there is none; the table grows by at most one entry and no other entry moves.
   */
  function UpsertUser(us: seq<User>, u: User): (r: seq<User>)
    ensures u in r
    ensures |us| <= |r| <= |us| + 1
    ensures |r| == |us| <==> exists i :: 0 <= i < |us| && us[i].id == u.id
    ensures forall i :: 0 <= i < |us| && Some(i) != FindUserIndex(us, u.id) ==> r[i] == us[i]
    ensures FindUserIndex(us, u.id).Some? ==> r[FindUserIndex(us, u.id).value] == u
    ensures FindUserIndex(us, u.id).None? ==> r[|us|] == u
  {
    match FindUserIndex(us, u.id)
    case Some(k) => assert us[k := u][k] == u; us[k := u]
    case None => us + [u]
  }

  /** After saving, a lookup of the saved id finds the saved user. */
  lemma UpsertThenFind(us: seq<User>, u: User)
    ensures var r := UpsertUser(us, u);
      FindUserIndex(r, u.id).Some? && r[FindUserIndex(r, u.id).value] == u
  {
    var r := UpsertUser(us, u);
    match FindUserIndex(us, u.id)
    case Some(k) =>
      assert forall j :: 0 <= j < k ==> r[j] == us[j];
      assert FindUserIndex(r, u.id) == Some(k) by { FindUserIndexFirst(r, u.id, k); }
    case None =>
      assert forall j :: 0 <= j < |us| ==> r[j] == us[j];
      FindUserIndexFirst(r, u.id, |us|);
  }

  /** A user with `id` at position `k`, after none, is what the lookup finds. */
  lemma {:induction false} FindUserIndexFirst(us: seq<User>, id: string, k: nat)
    requires k < |us| && us[k].id == id && forall j :: 0 <= j < k ==> us[j].id != id
    ensures FindUserIndex(us, id) == Some(k)
  {
    if k > 0 {
      FindUserIndexFirst(us[1..], id, k - 1);
    }
  }

  /** Saving the same user twice leaves the table as saving it once. */
  lemma UpsertIdempotent(us: seq<User>, u: User)
    ensures UpsertUser(UpsertUser(us, u), u) == UpsertUser(us, u)
  {
    var r := UpsertUser(us, u);
    UpsertThenFind(us, u);
    var k := FindUserIndex(r, u.id).value;
    assert r[k := u] == r;
  }

  /** The filter predicate of `deleteUser(id)`. */
  function OtherUser(id: string): User -> bool
  {
    (u: User) => u.id != id
  }

  /**
   * The table `deleteUser(id)` writes for an unprotected id: every user with `id` goes, every
   * copy of every other user stays, in the same order.
   */
  function WithoutUser(us: seq<User>, id: string): (r: seq<User>)
    ensures forall i :: 0 <= i < |r| ==> r[i].id != id
    ensures forall i :: 0 <= i < |us| && us[i].id != id ==> us[i] in r
    ensures forall x :: multiset(r)[x] == if x.id != id then multiset(us)[x] else 0
    ensures IsSubsequence(r, us)
  {
    FilterIsSubsequence(us, OtherUser(id));
    FilterCounts(us, OtherUser(id));
    Filter(us, OtherUser(id))
  }
}
