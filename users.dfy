/**
 * The `users` row as the dashboard sees it (interfaces/users.ts), and the
 * object spread `{ ...user, ...updates }` used to apply a partial update.
 */
module Users {
  import opened Wrappers

  /**
   * One row. Optional and nullable columns are `Option`s; `undefined` and
   * `null` are not told apart. `id` is optional: a record built on the
   * client has none until the store assigns one.
   */
  datatype User = User(
    id: Option<string>,
    number: string,
    name: Option<string>,
    absenPagi: bool,
    absenSore: bool,
    lastCheckin: Option<string>,
    suspendUntil: Option<string>,
    createdAt: Option<string>,
    updatedAt: Option<string>)

  /**
   * `Partial<IUser>`: each field is `None` when the key is absent from the
   * update object and `Some(v)` when it is present with value `v`.
   */
  datatype UserPatch = UserPatch(
    id: Option<Option<string>>,
    number: Option<string>,
    name: Option<Option<string>>,
    absenPagi: Option<bool>,
    absenSore: Option<bool>,
    lastCheckin: Option<Option<string>>,
    suspendUntil: Option<Option<string>>,
    createdAt: Option<Option<string>>,
    updatedAt: Option<Option<string>>)

  /** The update object `{}` with no keys. */
  const EmptyPatch := UserPatch(None, None, None, None, None, None, None, None, None)

  /** The value of one key after a spread: the update's when it has the key. */
  function Pick<T>(update: Option<T>, current: T): T {
    update.GetOr(current)
  }

  /** `{ ...u, ...p }`: a key the update has takes its value, every other key keeps the record's. */
  function Merge(u: User, p: UserPatch): (r: User)
    ensures p.absenPagi.Some? ==> r.absenPagi == p.absenPagi.value
    ensures p.absenPagi.None? ==> r.absenPagi == u.absenPagi
    ensures p.absenSore.Some? ==> r.absenSore == p.absenSore.value
    ensures p.absenSore.None? ==> r.absenSore == u.absenSore
    ensures p.number.Some? ==> r.number == p.number.value
    ensures p.number.None? ==> r.number == u.number
    ensures p.id.Some? ==> r.id == p.id.value
    ensures p.id.None? ==> r.id == u.id
    ensures p.name.Some? ==> r.name == p.name.value
    ensures p.name.None? ==> r.name == u.name
    ensures p.lastCheckin.Some? ==> r.lastCheckin == p.lastCheckin.value
    ensures p.lastCheckin.None? ==> r.lastCheckin == u.lastCheckin
    ensures p.suspendUntil.Some? ==> r.suspendUntil == p.suspendUntil.value
    ensures p.suspendUntil.None? ==> r.suspendUntil == u.suspendUntil
    ensures p.createdAt.Some? ==> r.createdAt == p.createdAt.value
    ensures p.createdAt.None? ==> r.createdAt == u.createdAt
    ensures p.updatedAt.Some? ==> r.updatedAt == p.updatedAt.value
    ensures p.updatedAt.None? ==> r.updatedAt == u.updatedAt
  {
    User(
      Pick(p.id, u.id),
      Pick(p.number, u.number),
      Pick(p.name, u.name),
      Pick(p.absenPagi, u.absenPagi),
      Pick(p.absenSore, u.absenSore),
      Pick(p.lastCheckin, u.lastCheckin),
      Pick(p.suspendUntil, u.suspendUntil),
      Pick(p.createdAt, u.createdAt),
      Pick(p.updatedAt, u.updatedAt))
  }

  /**
   * Applying the same update twice is the same as applying it once, and the
   * update with no keys changes nothing.
   */
  lemma MergeProperties(u: User, p: UserPatch)
    ensures Merge(Merge(u, p), p) == Merge(u, p)
    ensures Merge(u, EmptyPatch) == u
  {
  }
}
