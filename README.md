# Ingat-in dashboard core, modelled in Dafny

The Ingat-in dashboard lets staff watch and edit the attendance records that a
WhatsApp bot keeps. Each user has a morning check-in flag (`absen_pagi`) and an
evening check-in flag (`absen_sore`). This project models the parts of the
dashboard that hold logic and proves properties about them:

- the attendance statistics on the overview page and the display form of a
  stored phone number (`DashboardPage`);
- the create-user form: its two toggles, and the submit handler that turns a
  typed number into the stored WhatsApp address `62…@s.whatsapp.net`
  (`CreateUserPage`);
- `wa.me` link building for the bot (`WhatsApp`), with `encodeURIComponent`
  written out over Unicode scalar values (`UriComponent`);
- the optimistic user mutations over the shared query cache. Update and
  delete snapshot the cache, change it, and restore it on failure. Create and
  the attendance resets only invalidate (`UserMutations`, with the cache as the
  class `QueryClient`);
- the two session providers' redirect rules and state (`AuthProvider`,
  `LegacyAuthProvider`), and the protected layout's gate (`DashboardLayout`);
- the realtime connection indicator (`RealtimeStatus`).

`Wrappers`, `Strings`, `Users` and `Navigation` hold shared definitions:
`Option`, the JavaScript string operations used (`startsWith`, `includes`,
`replace` with a string pattern), the user record with the object spread
`{ ...user, ...updates }`, and router calls.

Every file is verified together:

    dafny verify --resource-limit 2000000 --verification-time-limit 0 --warn-contradictory-assumptions *.dfy

## Model

| member | source | states |
|---|---|---|
| Users.Merge | services/users/mutation.ts:39-45 | `{ ...user, ...updates }`: for each of the nine keys (`id`, `number`, `name`, both check-in flags, `lastCheckin`, `suspendUntil`, `createdAt`, `updatedAt`), the result carries the update's value when the update has the key. Otherwise it keeps the record's. |
| Users.MergeProperties | services/users/mutation.ts:39-45 | Merging the same update twice equals merging it once. The update `{}` with no keys is the identity. |
| DashboardPage.Done | app/dashboard/page.tsx:30-31 | The filtered list holds exactly the records whose flag is set for that session, and is no longer than the input. |
| DashboardPage.ComputeStats | app/dashboard/page.tsx:20-46 | `totalUsers` is the list length and `sudah` counts the checked-in records, per session. Also sudah + belum == totalUsers, both are non-negative, and the percentage is in [0, 100]. For a non-empty list each session's percentage p is the nearest integer to 100·sudah/total: 2·t·p − t ≤ 200·sudah < 2·t·p + t. |
| DashboardPage.EmptyStats | app/dashboard/page.tsx:21-27 | An empty list gives total 0 and zero counts and percentages. |
| DashboardPage.PercentageBounds | app/dashboard/page.tsx:38 | The rounded percentage lies in [0, 100]. It is 0 when nobody has checked in and 100 when everybody has. |
| DashboardPage.PercentageNearest | app/dashboard/page.tsx:38 | The percentage p is the nearest integer to 100·sudah/total, with halves rounded up: 2·t·p − t ≤ 200·s < 2·t·p + t. |
| DashboardPage.NearestUnique | app/dashboard/page.tsx:38 | At most one integer satisfies that bracket, so it determines the shown percentage exactly. |
| DashboardPage.StatsEndpoints | app/dashboard/page.tsx:36-43 | For a non-empty list, each session's card shows 0% when none of its flags is set and 100% when all are. |
| DashboardPage.DoneMultiset | app/dashboard/page.tsx:30-31 | Each record occurs among the checked-in ones as often as in the list if its flag is set, and never otherwise. |
| DashboardPage.StatsIgnoreOrder | app/dashboard/page.tsx:29-31 | Two lists with the same records in any order give identical statistics. |
| Strings.ReplaceFirst | app/dashboard/page.tsx:84 | JavaScript `replace` with a string pattern: without an occurrence the string is unchanged. Otherwise only the first occurrence is replaced, by `w` taken literally. |
| DashboardPage.FormatPhoneNumber | app/dashboard/page.tsx:83-85 | A number without `@s.whatsapp.net` is shown unchanged. Otherwise exactly the first occurrence is cut out. |
| DashboardPage.FormatStripsAppendedSuffix | app/dashboard/page.tsx:83-85 | Displaying `p + "@s.whatsapp.net"` gives back `p` when `p` has no suffix of its own. |
| CreateUserPage.ToggleAbsenPagi | app/users/create/page.tsx:64-66 | Flips the morning flag and leaves the number and the evening flag unchanged. |
| CreateUserPage.ToggleAbsenSore | app/users/create/page.tsx:68-70 | Flips the evening flag and leaves the number and the morning flag unchanged. |
| CreateUserPage.TogglesInvolutive | app/users/create/page.tsx:64-70 | Each toggle applied twice restores the form, and the two toggles commute. |
| CreateUserPage.HandleSubmit | app/users/create/page.tsx:25-62 | An empty number submits nothing. Otherwise the payload is the normalised number plus both form flags unchanged. The page navigates to `/users` exactly when a submitted creation succeeds. |
| CreateUserPage.WithCountryCode | app/users/create/page.tsx:37-42 | The country-code step always yields a number starting with `62`, at most two characters longer than the typed one. |
| CreateUserPage.WithSuffix | app/users/create/page.tsx:44-47 | The suffix step yields a string that contains `@s.whatsapp.net` and begins with the number it was given, at most the suffix longer. |
| CreateUserPage.Normalize | app/users/create/page.tsx:35-47 | The stored number always starts with `62` and always contains `@s.whatsapp.net`. |
| CreateUserPage.CountryCodeCases | app/users/create/page.tsx:37-42 | A leading `0` is replaced by `62`. A number starting with `62` keeps its prefix, with no double code. Any other number gets `62` in front. The result always starts with `62`. |
| CreateUserPage.NormalizeIdempotent | app/users/create/page.tsx:35-47 | Normalising an already normalised number changes nothing. |
| CreateUserPage.CountryCodeKeepsSuffix | app/users/create/page.tsx:37-47 | The country-code step neither creates nor removes a `@s.whatsapp.net` occurrence. So the suffix is appended exactly when the typed number lacks it: a typed suffix is kept and not doubled. |
| CreateUserPage.DisplayAfterNormalize | app/users/create/page.tsx:35-47 | Round trip with the overview page: for input without the suffix, displaying the stored number yields the `62`-prefixed number. |
| CreateUserPage.NormalizeLocalExample | app/users/create/page.tsx:38-39 | `08123456789` is stored as `628123456789@s.whatsapp.net`. |
| CreateUserPage.NormalizeInternationalExample | app/users/create/page.tsx:40-47 | `628123456789` is stored as `628123456789@s.whatsapp.net`, with no second `62`. |
| CreateUserPage.DisplayExample | app/dashboard/page.tsx:83-85 | `628123456789@s.whatsapp.net` is displayed as `628123456789`. |
| UriComponent.EncodeURIComponent | utils/whatsapp.ts:18 | The encoding is never shorter than the text and at most twelve times as long. It is empty exactly for the empty text. |
| UriComponent.EncodedIsEscaped | utils/whatsapp.ts:18 | Every character of `encodeURIComponent(text)` is unreserved, `%` or an upper-case hex digit. So no `&`, `#`, `?`, `=` or space reaches the query. |
| UriComponent.EncodeUnreserved | utils/whatsapp.ts:18 | Text made only of A–Z a–z 0–9 - _ . ! ~ * ' ( ) is encoded as itself. |
| UriComponent.EncodeConcat | utils/whatsapp.ts:18 | Encoding works character by character: the encoding of a + b is the encoding of a followed by that of b. |
| UriComponent.DecodeEncode | utils/whatsapp.ts:18 | Decoding the percent-encoded UTF-8 gives back the original text, so the encoding loses nothing. |
| WhatsApp.KeepDigits | utils/whatsapp.ts:16 | The result consists of digits only and is no longer than the input. |
| WhatsApp.KeepDigitsCounts | utils/whatsapp.ts:16 | Each digit is kept as often as it occurs; every non-digit is dropped. |
| WhatsApp.KeepDigitsConcat | utils/whatsapp.ts:16 | Stripping distributes over concatenation, so the digits keep their original order. |
| WhatsApp.KeepDigitsOfDigits | utils/whatsapp.ts:16 | A digits-only string is left unchanged. |
| WhatsApp.KeepDigitsIdempotent | utils/whatsapp.ts:16 | Stripping twice is stripping once. |
| WhatsApp.GenerateWhatsAppLink | utils/whatsapp.ts:15-19 | The link starts with `https://wa.me/` followed by the number's digits. With an absent or empty text it is exactly that base URL. |
| WhatsApp.LinkRoundTrip | utils/whatsapp.ts:15-19 | Parsing the link gives back exactly the number's digits. It gives back the message text, decoded, exactly when the text is non-empty. |
| WhatsApp.BotNumber | utils/whatsapp.ts:24 | `BOT_NUMBER` is the configured value whenever the variable is set (an empty value gives `""` either way), and `""` when the variable is unset. |
| WhatsApp.StripLeadingZero | utils/whatsapp.ts:29 | `/^0/` drops one leading zero when there is one and changes nothing otherwise. |
| WhatsApp.BotNumberWithCountryCode | utils/whatsapp.ts:29 | The bot number always starts with `62`. It is two characters longer than BOT_NUMBER, or one when a leading `0` was dropped. |
| WhatsApp.BotDigits | utils/whatsapp.ts:16-29 | The `\D` filter keeps the `62` prefix, so the bot link's digits are `62` followed by the digits of the zero-stripped BOT_NUMBER. |
| WhatsApp.GenerateBotWhatsAppLink | utils/whatsapp.ts:36-41 | The bot link starts with `https://wa.me/62` followed by the digits of the zero-stripped BOT_NUMBER. Without a message it is exactly that. |
| WhatsApp.BotNumberShape | utils/whatsapp.ts:24-29 | The bot number is `62` plus BOT_NUMBER with at most one leading `0` removed. `62` is prepended even when BOT_NUMBER already starts with `62`, giving `6262…`. |
| WhatsApp.BotLinkRoundTrip | utils/whatsapp.ts:36-41 | The bot link addresses `62` followed by the digits of the zero-stripped bot number, and carries the message exactly when it is non-empty. |
| WhatsApp.EmptyBotNumber | utils/whatsapp.ts:24-41 | With BOT_NUMBER unset or empty, the link without a message is `https://wa.me/62`. |
| WhatsApp.PlainLink | utils/whatsapp.ts:15-19 | A link for a digits-only number and a non-empty message of unreserved characters is `https://wa.me/<number>?text=<message>` with both copied verbatim. |
| WhatsApp.BotNumberExample | utils/whatsapp.ts:24-29 | BOT_NUMBER `081234` becomes `6281234`. |
| WhatsApp.BotLinkExample | utils/whatsapp.ts:29-41 | Bot number `081234` with the message `halo` gives `https://wa.me/6281234?text=halo`. |
| UserMutations.UpdateInList | services/users/mutation.ts:43-45 | The optimistic list update keeps the list's length. |
| UserMutations.UpdateInListPointwise | services/users/mutation.ts:43-45 | Position by position, a record whose id equals `id` becomes the merge with `updates`, with update fields winning. Every other record, including those without an id, is unchanged. Order is preserved. |
| UserMutations.UpdateNoMatch | services/users/mutation.ts:44 | An update whose id matches no record leaves the cached list unchanged. |
| UserMutations.UpdateShowsFlags | services/users/mutation.ts:43-45 | After the optimistic update, every record with that id shows the check-in flags the update sets. |
| UserMutations.UpdateInListIdempotent | services/users/mutation.ts:43-45 | Applying the same optimistic update twice equals applying it once. |
| UserMutations.RemoveFromList | services/users/mutation.ts:73-75 | The optimistic delete never lengthens the list. |
| UserMutations.RemoveFromListCounts | services/users/mutation.ts:73-75 | Records with the deleted id disappear. Each other record remains as often as before. |
| UserMutations.RemoveFromListMembers | services/users/mutation.ts:73-75 | No record with the deleted id is left, and every record with another id or no id is. |
| UserMutations.RemoveFromListConcat | services/users/mutation.ts:73-75 | Delete distributes over concatenation, so kept records stay in their relative order. |
| UserMutations.RemoveFromListNoMatch | services/users/mutation.ts:73-75 | Deleting an id no record has leaves the list unchanged. |
| UserMutations.RemoveFromListIdempotent | services/users/mutation.ts:73-75 | Deleting twice equals deleting once. |
| UserMutations.MergeDetail | services/users/mutation.ts:39-41 | An absent detail entry stays absent. A cached record becomes `Merge(record, updates)`, so every key follows `Users.Merge`'s per-key rule; the check-in flags and the id are also stated directly. A cached list is left alone. |
| UserMutations.UpdateListEntry | services/users/mutation.ts:43-45 | An absent list stays absent. A cached list keeps its length. Every record without that id stays in place unchanged, and every record with that id becomes `Merge(record, updates)` at the same position. |
| UserMutations.RemoveListEntry | services/users/mutation.ts:73-75 | An absent list stays absent. A cached list keeps exactly the records whose id differs, and never grows. |
| UserMutations.OptimisticUpdate | services/users/mutation.ts:38-45 | After the update's onMutate, the detail entry is merged if present and stays absent if absent. The list entry gets the per-id update if present and stays absent if absent. Every other key is unchanged. |
| UserMutations.OptimisticDelete | services/users/mutation.ts:72-75 | After the delete's onMutate, the list entry is filtered if present and stays absent if absent. Every other key is unchanged. |
| UserMutations.UpdateRollback | services/users/mutation.ts:49-56 | Putting back the present snapshots after the optimistic update restores the whole cache exactly. This includes an empty list and entries that were absent. |
| UserMutations.DeleteRollback | services/users/mutation.ts:79-83 | Putting back the list snapshot after the optimistic delete restores the whole cache exactly. |
| UserMutations.InvalidateUserQueries | services/users/mutation.ts:19-21 | Entries are unchanged and the cache stays well typed. Every cached `["users", …]` key becomes stale, and one invalidation of `["users"]` is logged. |
| UserMutations.UpdateUserOnMutate | services/users/mutation.ts:29-48 | Returns both snapshots and leaves the cache equal to OptimisticUpdate of the old cache. Nothing is invalidated, and the typing invariant is kept. |
| UserMutations.UpdateUserOnError | services/users/mutation.ts:49-57 | Writes back each snapshot that was present and nothing else, and keeps the cache well typed. |
| UserMutations.UpdateUser | services/users/mutation.ts:23-60 | On success the cache keeps the optimistic update. On failure it equals the cache before the mutation. Either way exactly one invalidation of the user queries follows. |
| UserMutations.DeleteUserOnMutate | services/users/mutation.ts:67-78 | Returns the list snapshot and leaves the cache equal to OptimisticDelete of the old cache. |
| UserMutations.DeleteUserOnError | services/users/mutation.ts:79-83 | Writes back the list snapshot if it was present and nothing else, and keeps the cache well typed. |
| UserMutations.DeleteUser | services/users/mutation.ts:62-86 | On success the records with that id are gone. On failure the cache equals the cache before. Either way exactly one invalidation follows. |
| UserMutations.InvalidateOnSuccess | services/users/mutation.ts:88-113 | Create and both resets never change cached entries. They invalidate the user queries once on success and not at all on failure. |
| AuthProvider.SessionUser | components/providers/auth-provider.tsx:34 | The user is present exactly when there is a session. |
| AuthProvider.RedirectFor | components/providers/auth-provider.tsx:38-45 | No session on a route starting with `/dashboard` replaces to `/login`. A session on exactly `/login` replaces to `/dashboard`. Every other pair issues no redirect, so at most one per check. |
| AuthProvider.RedirectSettles | components/providers/auth-provider.tsx:38-45 | A redirect never targets the current route, and its target asks for no further redirect under the same session. |
| AuthProvider.AuthProvider.constructor | components/providers/auth-provider.tsx:20-22 | Starts with no user, loading, and the initial check not done. |
| AuthProvider.AuthProvider.CheckSession | components/providers/auth-provider.tsx:28-51 | On both the success and the error path, loading ends and the initial check is marked done. A resolved check sets the user and redirects by RedirectFor. A failed check redirects nowhere. |
| AuthProvider.AuthProvider.OnAuthStateChange | components/providers/auth-provider.tsx:58-71 | The user always follows the event's session. A redirect is issued only once the initial check is done. Loading is untouched, so loading still lasts exactly until the first check ends. |
| LegacyAuthProvider.RedirectFor | components/auth-provider.tsx:35-39 | No session on any route but `/login` pushes `/login`. A session on `/login` pushes `/`. Every other pair pushes nothing. |
| LegacyAuthProvider.RedirectSettles | components/auth-provider.tsx:49-53 | A push never targets the current route and leads to a route that asks for none. |
| LegacyAuthProvider.DiffersFromCurrentProvider | components/auth-provider.tsx:35-38 | Unlike the current provider, a visitor without a session on `/` is sent to `/login`. A signed-in visitor on `/login` goes to `/`, not `/dashboard`. |
| LegacyAuthProvider.LegacyAuthProvider.constructor | components/auth-provider.tsx:21-22 | Starts with no user and loading. |
| LegacyAuthProvider.LegacyAuthProvider.OnSessionResolved | components/auth-provider.tsx:28-40 | Loading ends only here, and the user and the push follow the session. |
| LegacyAuthProvider.LegacyAuthProvider.OnAuthStateChange | components/auth-provider.tsx:43-54 | Uses the same rule with no initial-check gating, and leaves loading as it was. |
| LegacyAuthProvider.LegacyAuthProvider.SignOut | components/auth-provider.tsx:59-62 | Sign-out pushes `/login` exactly when the auth service's `signOut()` returned. A rejected call throws before the push. |
| DashboardLayout.LayoutGate | app/dashboard/layout.tsx:14-75 | While loading, the layout shows the verifying-session view and does not redirect. When not loading and there is no user, it calls replace("/login") and shows only the spinner. The sidebar and children render exactly when not loading and a user is present. |
| DashboardLayout.LayoutAgreesWithProvider | app/dashboard/layout.tsx:14-18 | On a protected route after a resolved check, the layout's redirect equals the provider's: both go to `/login` without a session, and neither redirects with one. |
| DashboardLayout.NoChildrenBeforeCheck | app/dashboard/layout.tsx:21-47 | While the provider's first check is pending, the layout shows only the verifying-session view and does not redirect. |
| RealtimeStatus.StatusFor | hooks/useRealtimeStatus.ts:26-31 | `SUBSCRIBED` maps to connected. `CHANNEL_ERROR`, `TIMED_OUT` and `CLOSED` map to disconnected. Every other status maps to connecting. |
| RealtimeStatus.ReplayIsLatest | hooks/useRealtimeStatus.ts:25-33 | After any series of reports the status is that of the latest report. Earlier reports do not matter. |
| RealtimeStatus.StatusMonitor.constructor | hooks/useRealtimeStatus.ts:21 | The initial status is connecting. |
| RealtimeStatus.StatusMonitor.OnChannelStatus | hooks/useRealtimeStatus.ts:25-33 | Each callback overwrites the status with StatusFor of the reported status. |

## Left out

- The hosted auth and database service is not modelled. Each remote call (`getSession`, `signOut`, `updateUser`, `deleteUser`, create, resets) appears as its outcome: a parameter saying whether it succeeded, or which session it returned.
- The legacy provider's `getSession()` has no failure outcome. Its promise has no `catch` (components/auth-provider.tsx:28-40), so a rejection leaves `loading` true forever. The model covers that case only by never calling `OnSessionResolved`.
- The mutation hooks import `createUser`, `resetMorningAttendance` and `resetEveningAttendance`, which services/users/api.ts does not export (it has `postCreateUser`). Only their success or failure is modelled.
- The query keys come from services/users/query.ts:9,18 (`["users"]`, `["users", id]`). The constants module that defines `USER_QUERY_KEYS` is not part of this model.
- The query cache is reduced to entries, a stale set and an invalidation log. Refetching, `staleTime`, `enabled`, observers and `cancelQueries` are the query library's, not this repository's. `cancelQueries` is left out, and so is the awaiting before the snapshot.
- Asynchrony is not modelled. Callbacks run as sequential method calls. Interleaved mutations on the same keys, where the last one to settle wins, are not modelled.
- DashboardPage.ComputeStats: its nearest-integer clause has the same exact rounding as PercentageNearest, below.
- DashboardPage.PercentageNearest: the percentage uses exact rational rounding `(200·s + t) div (2·t)`. JavaScript's `Math.round((s/t)*100)` works on floats and can round an exact half down (s = 29, t = 200 gives 14, not 15). The bounds and the 0/100 end points hold either way.
- `null` and `undefined` are not told apart for the record's optional fields. An update key present with value `undefined` is `Some(None)` in `UserPatch`.
- Strings.ReplaceFirst: inserts the replacement literally and does not expand JavaScript's `$&`, `$$`, `` $` `` or `$'` patterns. This is exact for the only use, which passes the empty string.
- Users.Merge: `UserPatch.number`, `absenPagi` and `absenSore` are `Option<string>` or `Option<bool>`. So an update such as `{ absen_pagi: undefined }` cannot be written. The spread would copy that `undefined` over the record's flag. The model treats such a key as absent.
- The current provider's effect re-runs, re-subscribes and re-checks the session when `pathname` or `initialCheckDone` changes. The model takes each callback to see the provider's current state. The stale-closure window before the re-run is not modelled.
- The legacy provider's `signOut` also triggers an auth-change event, which may push `/login` a second time. Each handler is modelled on its own.
- Logging, `alert`, the markup of each view and the framer-motion animation settings are not modelled.
- `encodeURIComponent` is modelled over Unicode scalar values. A lone UTF-16 surrogate, for which JavaScript throws a `URIError`, cannot occur in a Dafny string.
