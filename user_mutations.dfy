/**
 * The user mutation hooks (services/users/mutation.ts) over a shared query
 * cache. Update and delete change the cached entries optimistically before
 * the request, keep a snapshot, restore it when the request fails, and
 * invalidate every `["users", …]` entry once the request has settled.
 * Create and the two attendance resets change nothing locally and
 * invalidate only when the request succeeds.
 */
module UserMutations {
  import opened Wrappers
  import opened Users

  /** A query key: an ordered tuple of segments. */
  type QueryKey = seq<string>

  /** `["users"]`: the key of the user list, and the prefix of every user query. */
  const UsersRoot: QueryKey := ["users"]

  /** `["users", id]`: the key of one user. */
  function UserDetail(id: string): QueryKey {
    ["users", id]
  }

  /** What a user query caches: the list, or one record. */
  datatype CacheData = UserList(users: seq<User>) | UserRecord(user: User)

  predicate HasPrefix(key: QueryKey, prefix: QueryKey) {
    |prefix| <= |key| && key[..|prefix|] == prefix
  }

  // The optimistic transforms, as pure functions.

  /** `old.map((user) => (user.id === id ? { ...user, ...updates } : user))` */
  function UpdateInList(users: seq<User>, id: string, updates: UserPatch): (r: seq<User>)
    ensures |r| == |users|
  {
    if users == [] then []
    else
      var head := if users[0].id == Some(id) then Merge(users[0], updates) else users[0];
      [head] + UpdateInList(users[1..], id, updates)
  }

  /** `old.filter((user) => user.id !== id)` */
  function RemoveFromList(users: seq<User>, id: string): (r: seq<User>)
    ensures |r| <= |users|
  {
    if users == [] then []
    else if users[0].id != Some(id) then [users[0]] + RemoveFromList(users[1..], id)
    else RemoveFromList(users[1..], id)
  }

  /**
   * The update reaches exactly the records carrying `id`, in place: the
   * length and order stay, other records (including those with no id) are
   * untouched, and the update's fields win in the matching ones.
   */
  lemma {:induction false} UpdateInListPointwise(users: seq<User>, id: string, updates: UserPatch)
    ensures forall i :: 0 <= i < |users| ==>
      UpdateInList(users, id, updates)[i]
        == if users[i].id == Some(id) then Merge(users[i], updates) else users[i]
  {
    if users != [] {
      UpdateInListPointwise(users[1..], id, updates);
    }
  }

  /** An update whose id matches no cached record leaves the list as it is. */
  lemma UpdateNoMatch(users: seq<User>, id: string, updates: UserPatch)
    requires forall i :: 0 <= i < |users| ==> users[i].id != Some(id)
    ensures UpdateInList(users, id, updates) == users
  {
    UpdateInListPointwise(users, id, updates);
  }

  /** After the optimistic update every record with that id shows the new check-in flags. */
  lemma UpdateShowsFlags(users: seq<User>, id: string, updates: UserPatch, i: int)
    requires 0 <= i < |users| && users[i].id == Some(id)
    ensures updates.absenPagi.Some? ==> UpdateInList(users, id, updates)[i].absenPagi == updates.absenPagi.value
    ensures updates.absenSore.Some? ==> UpdateInList(users, id, updates)[i].absenSore == updates.absenSore.value
  {
    UpdateInListPointwise(users, id, updates);
  }

  /** Applying the same optimistic update twice changes nothing more. */
  lemma UpdateInListIdempotent(users: seq<User>, id: string, updates: UserPatch)
    ensures UpdateInList(UpdateInList(users, id, updates), id, updates) == UpdateInList(users, id, updates)
  {
    var once := UpdateInList(users, id, updates);
    UpdateInListPointwise(users, id, updates);
    UpdateInListPointwise(once, id, updates);
    forall i | 0 <= i < |users|
      ensures UpdateInList(once, id, updates)[i] == once[i]
    {
      if users[i].id == Some(id) {
        MergeProperties(users[i], updates);
      }
    }
  }

  /** The records left after a delete are exactly those without that id, each as often as before. */
  lemma {:induction false} RemoveFromListCounts(users: seq<User>, id: string)
    ensures forall u ::
      multiset(RemoveFromList(users, id))[u] == if u.id != Some(id) then multiset(users)[u] else 0
  {
    if users != [] {
      RemoveFromListCounts(users[1..], id);
      assert users == [users[0]] + users[1..];
    }
  }

  /** No record with the deleted id is left; every other record is. */
  lemma RemoveFromListMembers(users: seq<User>, id: string)
    ensures forall u :: u in RemoveFromList(users, id) <==> u in users && u.id != Some(id)
  {
    RemoveFromListCounts(users, id);
    forall u
      ensures u in RemoveFromList(users, id) <==> u in users && u.id != Some(id)
    {
      assert u in RemoveFromList(users, id) <==> multiset(RemoveFromList(users, id))[u] > 0;
      assert u in users <==> multiset(users)[u] > 0;
    }
  }

  /** The kept records stay in their relative order: deleting works piece by piece. */
  lemma {:induction false} RemoveFromListConcat(a: seq<User>, b: seq<User>, id: string)
    ensures RemoveFromList(a + b, id) == RemoveFromList(a, id) + RemoveFromList(b, id)
  {
    if a == [] {
      assert a + b == b;
    } else {
      assert (a + b)[1..] == a[1..] + b;
      RemoveFromListConcat(a[1..], b, id);
    }
  }

  /** Deleting an id no record has changes nothing; deleting twice is deleting once. */
  lemma {:induction false} RemoveFromListNoMatch(users: seq<User>, id: string)
    requires forall i :: 0 <= i < |users| ==> users[i].id != Some(id)
    ensures RemoveFromList(users, id) == users
  {
    if users != [] {
      RemoveFromListNoMatch(users[1..], id);
      assert users == [users[0]] + users[1..];
    }
  }

  lemma RemoveFromListIdempotent(users: seq<User>, id: string)
    ensures RemoveFromList(RemoveFromList(users, id), id) == RemoveFromList(users, id)
  {
    var once := RemoveFromList(users, id);
    RemoveFromListMembers(users, id);
    RemoveFromListNoMatch(once, id);
  }

  // The transforms applied to cache entries; `None` is an absent entry.

  /**
   * `old ? { ...old, ...updates } : old` on the detail entry: an absent entry
   * stays absent, a cached record becomes the spread of the update over it
   * (each key as `Users.Merge` states).
   */
  function MergeDetail(entry: Option<CacheData>, updates: UserPatch): (r: Option<CacheData>)
    ensures r.Some? <==> entry.Some?
    ensures entry.Some? && entry.value.UserRecord? ==>
      && r.value.UserRecord?
      && (updates.absenPagi.Some? ==> r.value.user.absenPagi == updates.absenPagi.value)
      && (updates.absenSore.Some? ==> r.value.user.absenSore == updates.absenSore.value)
      && (updates.id.None? ==> r.value.user.id == entry.value.user.id)
    ensures entry.Some? && entry.value.UserRecord? ==> r.value.user == Merge(entry.value.user, updates)
    ensures entry.Some? && entry.value.UserList? ==> r == entry
  {
    match entry
    case Some(UserRecord(u)) => Some(UserRecord(Merge(u, updates)))
    case _ => entry
  }

  /**
   * The list updater of the update hook: an absent list stays absent, a
   * cached list keeps its length and every record without that id, and each
   * record with that id becomes its spread with the update.
   */
  function UpdateListEntry(entry: Option<CacheData>, id: string, updates: UserPatch): (r: Option<CacheData>)
    ensures r.Some? <==> entry.Some?
    ensures entry.Some? && entry.value.UserList? ==>
      && r.value.UserList?
      && |r.value.users| == |entry.value.users|
      && forall i :: 0 <= i < |entry.value.users| && entry.value.users[i].id != Some(id) ==>
           r.value.users[i] == entry.value.users[i]
    ensures entry.Some? && entry.value.UserList? ==>
      forall i :: 0 <= i < |entry.value.users| && entry.value.users[i].id == Some(id) ==>
        r.value.users[i] == Merge(entry.value.users[i], updates)
    ensures entry.Some? && entry.value.UserRecord? ==> r == entry
  {
    match entry
    case Some(UserList(users)) =>
      UpdateInListPointwise(users, id, updates);
      Some(UserList(UpdateInList(users, id, updates)))
    case _ => entry
  }

  /**
   * The list updater of the delete hook: an absent list stays absent, a
   * cached list loses exactly the records with that id.
   */
  function RemoveListEntry(entry: Option<CacheData>, id: string): (r: Option<CacheData>)
    ensures r.Some? <==> entry.Some?
    ensures entry.Some? && entry.value.UserList? ==>
      && r.value.UserList?
      && |r.value.users| <= |entry.value.users|
      && forall u :: u in r.value.users <==> u in entry.value.users && u.id != Some(id)
    ensures entry.Some? && entry.value.UserRecord? ==> r == entry
  {
    match entry
    case Some(UserList(users)) =>
      RemoveFromListMembers(users, id);
      Some(UserList(RemoveFromList(users, id)))
    case _ => entry
  }

  function Get(m: map<QueryKey, CacheData>, key: QueryKey): Option<CacheData> {
    if key in m then Some(m[key]) else None
  }

  /** `setQueryData(key, value)`, where an updater returning `undefined` leaves the entry alone. */
  function Put(m: map<QueryKey, CacheData>, key: QueryKey, value: Option<CacheData>): map<QueryKey, CacheData> {
    if value.Some? then m[key := value.value] else m
  }

  /** The cache after the update hook's `onMutate`. */
  function OptimisticUpdate(m: map<QueryKey, CacheData>, id: string, updates: UserPatch): (r: map<QueryKey, CacheData>)
    ensures Get(r, UserDetail(id)) == MergeDetail(Get(m, UserDetail(id)), updates)
    ensures Get(r, UsersRoot) == UpdateListEntry(Get(m, UsersRoot), id, updates)
    ensures forall k :: k != UserDetail(id) && k != UsersRoot ==> Get(r, k) == Get(m, k)
  {
    var m1 := Put(m, UserDetail(id), MergeDetail(Get(m, UserDetail(id)), updates));
    Put(m1, UsersRoot, UpdateListEntry(Get(m1, UsersRoot), id, updates))
  }

  /** The cache after the delete hook's `onMutate`. */
  function OptimisticDelete(m: map<QueryKey, CacheData>, id: string): (r: map<QueryKey, CacheData>)
    ensures Get(r, UsersRoot) == RemoveListEntry(Get(m, UsersRoot), id)
    ensures forall k :: k != UsersRoot ==> Get(r, k) == Get(m, k)
  {
    Put(m, UsersRoot, RemoveListEntry(Get(m, UsersRoot), id))
  }

  /** Each user query key the cache holds; `invalidateQueries({ queryKey: ["users"] })` marks them all. */
  function UserKeys(m: map<QueryKey, CacheData>): set<QueryKey> {
    set k | k in m && HasPrefix(k, UsersRoot)
  }

  /**
   * Rollback after a failed update: putting back the snapshots that were
   * present restores the cache exactly, absent entries included.
   */
  lemma UpdateRollback(m: map<QueryKey, CacheData>, id: string, updates: UserPatch)
    ensures Put(Put(OptimisticUpdate(m, id, updates), UserDetail(id), Get(m, UserDetail(id))),
                UsersRoot, Get(m, UsersRoot)) == m
  {
    var r := Put(Put(OptimisticUpdate(m, id, updates), UserDetail(id), Get(m, UserDetail(id))),
                 UsersRoot, Get(m, UsersRoot));
    assert UserDetail(id) != UsersRoot;
    forall k
      ensures Get(r, k) == Get(m, k)
    {
    }
    MapsAgree(r, m);
  }

  /** Rollback after a failed delete restores the cache exactly. */
  lemma DeleteRollback(m: map<QueryKey, CacheData>, id: string)
    ensures Put(OptimisticDelete(m, id), UsersRoot, Get(m, UsersRoot)) == m
  {
    var r := Put(OptimisticDelete(m, id), UsersRoot, Get(m, UsersRoot));
    forall k
      ensures Get(r, k) == Get(m, k)
    {
    }
    MapsAgree(r, m);
  }

  lemma MapsAgree(a: map<QueryKey, CacheData>, b: map<QueryKey, CacheData>)
    requires forall k :: Get(a, k) == Get(b, k)
    ensures a == b
  {
    assert forall k :: k in a <==> Get(a, k).Some?;
    assert forall k :: k in b <==> Get(b, k).Some?;
    assert a.Keys == b.Keys;
  }

  /**
   * The process-wide query cache: the entries, which of them are stale,
   * and the log of `invalidateQueries` calls.
   */
  class QueryClient {
    var entries: map<QueryKey, CacheData>
    var stale: set<QueryKey>
    var invalidations: seq<QueryKey>

    /** User queries hold the type their key promises. */
    ghost predicate Valid()
      reads this
    {
      && (UsersRoot in entries ==> entries[UsersRoot].UserList?)
      && (forall id :: UserDetail(id) in entries ==> entries[UserDetail(id)].UserRecord?)
    }

    constructor ()
      ensures Valid()
      ensures entries == map[] && stale == {} && invalidations == []
    {
      entries := map[];
      stale := {};
      invalidations := [];
    }

    /** `getQueryData(key)`; `None` for `undefined`. */
    function GetQueryData(key: QueryKey): Option<CacheData>
      reads this
    {
      Get(entries, key)
    }

    /** `setQueryData(key, …)`; a `None` value is an updater that returned `undefined`. */
    method SetQueryData(key: QueryKey, value: Option<CacheData>)
      modifies this
      ensures entries == Put(old(entries), key, value)
      ensures stale == old(stale) && invalidations == old(invalidations)
    {
      if value.Some? {
        entries := entries[key := value.value];
      }
    }

    /** `invalidateQueries({ queryKey: prefix })`: every entry under the prefix becomes stale. */
    method InvalidateQueries(prefix: QueryKey)
      modifies this
      ensures entries == old(entries)
      ensures stale == old(stale) + (set k | k in entries && HasPrefix(k, prefix))
      ensures invalidations == old(invalidations) + [prefix]
    {
      stale := stale + (set k | k in entries && HasPrefix(k, prefix));
      invalidations := invalidations + [prefix];
    }
  }

  /** The context `onMutate` returns: the snapshots, `None` where the entry was absent. */
  datatype UpdateContext = UpdateContext(previousUser: Option<CacheData>, previousUsers: Option<CacheData>)
  datatype DeleteContext = DeleteContext(previousUsers: Option<CacheData>)

  /** Snapshots taken from a well-typed cache: a record for the detail key, a list for the root. */
  predicate RecordSnapshot(entry: Option<CacheData>) {
    entry.Some? ==> entry.value.UserRecord?
  }

  predicate ListSnapshot(entry: Option<CacheData>) {
    entry.Some? ==> entry.value.UserList?
  }

  /** `invalidateUserQueries`, run by `onSettled` and `onSuccess`. */
  method InvalidateUserQueries(qc: QueryClient)
    requires qc.Valid()
    modifies qc
    ensures qc.Valid()
    ensures qc.entries == old(qc.entries)
    ensures qc.stale == old(qc.stale) + UserKeys(qc.entries)
    ensures qc.invalidations == old(qc.invalidations) + [UsersRoot]
  {
    qc.InvalidateQueries(UsersRoot);
  }

  /** `useUpdateUser().onMutate`: snapshot both entries, then apply the update to them. */
  method UpdateUserOnMutate(qc: QueryClient, id: string, updates: UserPatch) returns (ctx: UpdateContext)
    requires qc.Valid()
    modifies qc
    ensures qc.Valid()
    ensures ctx == UpdateContext(Get(old(qc.entries), UserDetail(id)), Get(old(qc.entries), UsersRoot))
    ensures RecordSnapshot(ctx.previousUser) && ListSnapshot(ctx.previousUsers)
    ensures qc.entries == OptimisticUpdate(old(qc.entries), id, updates)
    ensures qc.stale == old(qc.stale) && qc.invalidations == old(qc.invalidations)
  {
    var previousUser := qc.GetQueryData(UserDetail(id));
    var previousUsers := qc.GetQueryData(UsersRoot);
    qc.SetQueryData(UserDetail(id), MergeDetail(qc.GetQueryData(UserDetail(id)), updates));
    qc.SetQueryData(UsersRoot, UpdateListEntry(qc.GetQueryData(UsersRoot), id, updates));
    ctx := UpdateContext(previousUser, previousUsers);
  }

  /** `useUpdateUser().onError`: put back each snapshot that was present. */
  method UpdateUserOnError(qc: QueryClient, id: string, ctx: UpdateContext)
    requires qc.Valid() && RecordSnapshot(ctx.previousUser) && ListSnapshot(ctx.previousUsers)
    modifies qc
    ensures qc.Valid()
    ensures qc.entries == Put(Put(old(qc.entries), UserDetail(id), ctx.previousUser), UsersRoot, ctx.previousUsers)
    ensures qc.stale == old(qc.stale) && qc.invalidations == old(qc.invalidations)
  {
    if ctx.previousUser.Some? {
      qc.SetQueryData(UserDetail(id), ctx.previousUser);
    }
    if ctx.previousUsers.Some? {
      qc.SetQueryData(UsersRoot, ctx.previousUsers);
    }
  }

  /**
   * One run of `useUpdateUser().mutate({ id, updates })` whose request
   * succeeds or fails: the cache keeps the optimistic update on success,
   * is exactly as before on failure, and the user queries are invalidated
   * once either way.
   */
  method UpdateUser(qc: QueryClient, id: string, updates: UserPatch, succeeded: bool)
    requires qc.Valid()
    modifies qc
    ensures qc.Valid()
    ensures succeeded ==> qc.entries == OptimisticUpdate(old(qc.entries), id, updates)
    ensures !succeeded ==> qc.entries == old(qc.entries)
    ensures qc.stale == old(qc.stale) + UserKeys(qc.entries)
    ensures qc.invalidations == old(qc.invalidations) + [UsersRoot]
  {
    ghost var before := qc.entries;
    var ctx := UpdateUserOnMutate(qc, id, updates);
    if !succeeded {
      UpdateUserOnError(qc, id, ctx);
      UpdateRollback(before, id, updates);
    }
    InvalidateUserQueries(qc);
  }

  /** `useDeleteUser().onMutate`: snapshot the list, then drop the records with that id. */
  method DeleteUserOnMutate(qc: QueryClient, id: string) returns (ctx: DeleteContext)
    requires qc.Valid()
    modifies qc
    ensures qc.Valid()
    ensures ctx == DeleteContext(Get(old(qc.entries), UsersRoot))
    ensures ListSnapshot(ctx.previousUsers)
    ensures qc.entries == OptimisticDelete(old(qc.entries), id)
    ensures qc.stale == old(qc.stale) && qc.invalidations == old(qc.invalidations)
  {
    var previousUsers := qc.GetQueryData(UsersRoot);
    qc.SetQueryData(UsersRoot, RemoveListEntry(qc.GetQueryData(UsersRoot), id));
    ctx := DeleteContext(previousUsers);
  }

  /** `useDeleteUser().onError`: put back the list snapshot when there was one. */
  method DeleteUserOnError(qc: QueryClient, ctx: DeleteContext)
    requires qc.Valid() && ListSnapshot(ctx.previousUsers)
    modifies qc
    ensures qc.Valid()
    ensures qc.entries == Put(old(qc.entries), UsersRoot, ctx.previousUsers)
    ensures qc.stale == old(qc.stale) && qc.invalidations == old(qc.invalidations)
  {
    if ctx.previousUsers.Some? {
      qc.SetQueryData(UsersRoot, ctx.previousUsers);
    }
  }

  /** One run of `useDeleteUser().mutate(id)` whose request succeeds or fails. */
  method DeleteUser(qc: QueryClient, id: string, succeeded: bool)
    requires qc.Valid()
    modifies qc
    ensures qc.Valid()
    ensures succeeded ==> qc.entries == OptimisticDelete(old(qc.entries), id)
    ensures !succeeded ==> qc.entries == old(qc.entries)
    ensures qc.stale == old(qc.stale) + UserKeys(qc.entries)
    ensures qc.invalidations == old(qc.invalidations) + [UsersRoot]
  {
    ghost var before := qc.entries;
    var ctx := DeleteUserOnMutate(qc, id);
    if !succeeded {
      DeleteUserOnError(qc, ctx);
      DeleteRollback(before, id);
    }
    InvalidateUserQueries(qc);
  }

  /**
   * One run of `useCreateUser`, `useResetMorningAttendance` or
   * `useResetEveningAttendance`: no local change, and the user queries are
   * invalidated only when the request succeeds.
   */
  method InvalidateOnSuccess(qc: QueryClient, succeeded: bool)
    requires qc.Valid()
    modifies qc
    ensures qc.Valid()
    ensures qc.entries == old(qc.entries)
    ensures succeeded ==> qc.stale == old(qc.stale) + UserKeys(qc.entries)
    ensures succeeded ==> qc.invalidations == old(qc.invalidations) + [UsersRoot]
    ensures !succeeded ==> qc.stale == old(qc.stale) && qc.invalidations == old(qc.invalidations)
  {
    if succeeded {
      InvalidateUserQueries(qc);
    }
  }
}
