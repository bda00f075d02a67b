/** The per-organisation snapshot store of MigrationHelper: one TinyDB file per collection,
    modelled as a map from file name to the records in that file. */
module Snapshot {
  import opened Wrappers
  import opened Identity

  const UsersCollection: string := "users.json"
  const GroupsCollection: string := "groups.json"

  /** The one record each backup inserts: `{'users': ...}` or `{'groups': ...}`. */
  datatype Record = UsersRecord(users: seq<User>) | GroupsRecord(groups: seq<Group>)

  /** File name to the records in that file, in insertion order. */
  type Store = map<string, seq<Record>>

  /** Delete the file, open it afresh and insert one record: the old contents are gone. */
  function Replace(store: Store, name: string, rec: Record): (r: Store)
    ensures name in r && r[name] == [rec]
    ensures forall k :: k != name ==> (k in r <==> k in store)
    ensures forall k :: k in store && k != name ==> r[k] == store[k]
  {
    store[name := [rec]]
  }

  /** `store.all()[0]`: the first record of a file, an IndexError when there is none.
      An absent file reads like an empty one (TinyDB creates it empty on open). */
  function ReadFirst(store: Store, name: string): (r: Result<Record, Error>)
    ensures r.Failure? <==> (name !in store || store[name] == [])
    ensures r.Success? ==> r.value == store[name][0]
  {
    if name !in store || |store[name]| == 0 then Failure(NoRecord(name))
    else Success(store[name][0])
  }

  /** The users of the `users.json` snapshot (the `'users'` key of its first record). */
  function ReadUsers(store: Store): (r: Result<seq<User>, Error>)
    ensures r.Success? <==> UsersCollection in store && |store[UsersCollection]| > 0
                            && store[UsersCollection][0].UsersRecord?
    ensures r.Success? ==> store[UsersCollection][0] == UsersRecord(r.value)
    ensures r.Failure? && ReadFirst(store, UsersCollection).Success? ==> r.error == MissingKey("users")
  {
    var rec :- ReadFirst(store, UsersCollection);
    match rec
    case UsersRecord(us) => Success(us)
    case GroupsRecord(_) => Failure(MissingKey("users"))
  }

  /** The groups of the `groups.json` snapshot (the `'groups'` key of its first record). */
  function ReadGroups(store: Store): (r: Result<seq<Group>, Error>)
    ensures r.Success? <==> GroupsCollection in store && |store[GroupsCollection]| > 0
                            && store[GroupsCollection][0].GroupsRecord?
    ensures r.Success? ==> store[GroupsCollection][0] == GroupsRecord(r.value)
    ensures r.Failure? && ReadFirst(store, GroupsCollection).Success? ==> r.error == MissingKey("groups")
  {
    var rec :- ReadFirst(store, GroupsCollection);
    match rec
    case GroupsRecord(gs) => Success(gs)
    case UsersRecord(_) => Failure(MissingKey("groups"))
  }

  function ConvertUsers(us: seq<ApiUser>): (r: seq<User>)
    ensures |r| == |us| && forall i :: 0 <= i < |us| ==> r[i] == FromApiUser(us[i])
  {
    seq(|us|, i requires 0 <= i < |us| => FromApiUser(us[i]))
  }

  function ConvertApiGroups(gs: seq<ApiGroup>): (r: seq<Group>)
    ensures |r| == |gs| && forall i :: 0 <= i < |gs| ==> r[i] == FromApiGroup(gs[i])
  {
    seq(|gs|, i requires 0 <= i < |gs| => FromApiGroup(gs[i]))
  }

  /** `backup_users`: the file is deleted and reopened (empty) BEFORE the platform is asked
      for its users, so a failed fetch leaves an empty `users.json`. */
  function BackupUsers(store: Store, fetched: Result<seq<ApiUser>, Error>): (r: (Store, Outcome<Error>))
    ensures r.1.Fail? <==> fetched.Failure?
    ensures fetched.Success? ==> ReadUsers(r.0) == Success(ConvertUsers(fetched.value))
    ensures fetched.Failure? ==> r.1 == Fail(fetched.error) && ReadUsers(r.0).Failure?
    ensures SameExcept(r.0, store, UsersCollection)
  {
    match fetched
    case Failure(e) => (store[UsersCollection := []], Fail(e))
    case Success(us) => (Replace(store, UsersCollection, UsersRecord(ConvertUsers(us))), Pass)
  }

  /** `backup_groups`: the platform is searched first, so a failed fetch leaves the store as it
      was; otherwise the file is replaced. */
  function BackupGroups(store: Store, fetched: Result<seq<ApiGroup>, Error>): (r: (Store, Outcome<Error>))
    ensures r.1.Fail? <==> fetched.Failure?
    ensures fetched.Success? ==> ReadGroups(r.0) == Success(ConvertApiGroups(fetched.value))
    ensures fetched.Failure? ==> r == (store, Fail(fetched.error))
    ensures SameExcept(r.0, store, GroupsCollection)
  {
    match fetched
    case Failure(e) => (store, Fail(e))
    case Success(gs) => (Replace(store, GroupsCollection, GroupsRecord(ConvertApiGroups(gs))), Pass)
  }

  /** The unfinished `backup`: it deletes `users.json` and writes nothing back. The converted
      users are discarded, and a failed fetch leaves the file deleted all the same. */
  function BackupUnfinished(store: Store, fetched: Result<seq<ApiUser>, Error>): (r: (Store, Outcome<Error>))
    ensures UsersCollection !in r.0
    ensures forall k :: k != UsersCollection ==> (k in r.0 <==> k in store)
    ensures forall k :: k in store && k != UsersCollection ==> r.0[k] == store[k]
    ensures r.1.Fail? <==> fetched.Failure?
  {
    var removed := store - {UsersCollection};
    match fetched
    case Failure(e) => (removed, Fail(e))
    case Success(_) => (removed, Pass)
  }

  /** Two stores agree everywhere except possibly on one file. */
  ghost predicate SameExcept(a: Store, b: Store, name: string) {
    && (forall k :: k != name ==> (k in a <==> k in b))
    && (forall k :: k in a && k != name ==> a[k] == b[k])
  }

  /** After a successful users backup the snapshot reads back as exactly the fetched users,
      converted in order, and no other file changes. */
  lemma BackupUsersReadBack(store: Store, us: seq<ApiUser>)
    ensures var (after, outcome) := BackupUsers(store, Success(us));
            && outcome == Pass
            && ReadUsers(after).Success?
            && |ReadUsers(after).value| == |us|
            && (forall i :: 0 <= i < |us| ==> ReadUsers(after).value[i] == FromApiUser(us[i]))
            && SameExcept(after, store, UsersCollection)
  {
  }

  /** A failed users fetch still wipes the users snapshot. */
  lemma BackupUsersFailureWipes(store: Store, e: Error)
    ensures var (after, outcome) := BackupUsers(store, Failure(e));
            && outcome == Fail(e)
            && ReadUsers(after) == Failure(NoRecord(UsersCollection))
            && SameExcept(after, store, UsersCollection)
  {
  }

  /** After a successful groups backup the snapshot reads back as N groups, field for field the
      fetched ones except that each snippet is its tags; no other file changes. */
  lemma BackupGroupsReadBack(store: Store, gs: seq<ApiGroup>)
    ensures var (after, outcome) := BackupGroups(store, Success(gs));
            && outcome == Pass
            && ReadGroups(after).Success?
            && var read := ReadGroups(after).value;
               && |read| == |gs|
               && (forall i :: 0 <= i < |gs| ==>
                     && read[i].id == gs[i].id && read[i].title == gs[i].title
                     && read[i].description == gs[i].description && read[i].tags == gs[i].tags
                     && read[i].snippet == gs[i].tags && read[i].phone == gs[i].phone
                     && read[i].access == gs[i].access
                     && read[i].isInvitationOnly == gs[i].isInvitationOnly)
               && SameExcept(after, store, GroupsCollection)
  {
  }

  /** A failed groups fetch leaves the store untouched, old snapshot included. */
  lemma BackupGroupsFailureKeeps(store: Store, e: Error)
    ensures BackupGroups(store, Failure(e)) == (store, Fail(e))
  {
  }

  /** Backups replace, never merge: the store after a second backup does not depend on what the
      first one wrote, and backing up the same data twice gives the store of backing it up once. */
  lemma BackupsReplace(store: Store, first: Result<seq<ApiUser>, Error>, us: seq<ApiUser>,
                       firstGroups: Result<seq<ApiGroup>, Error>, gs: seq<ApiGroup>)
    ensures BackupUsers(BackupUsers(store, first).0, Success(us)).0
            == BackupUsers(store, Success(us)).0
    ensures BackupGroups(BackupGroups(store, firstGroups).0, Success(gs)).0
            == BackupGroups(store, Success(gs)).0
  {
  }

  /** After the unfinished `backup`, no users snapshot can be read. */
  lemma BackupUnfinishedLeavesNoUsers(store: Store, fetched: Result<seq<ApiUser>, Error>)
    ensures ReadUsers(BackupUnfinished(store, fetched).0) == Failure(NoRecord(UsersCollection))
  {
  }
}
