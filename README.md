# Spendio spendings tracker: a Dafny model of its core

Spendio is a personal expenses application written in Python with Flet and a hosted
Supabase database. This project models the part of it that has behaviour worth
proving, and proves that behaviour.

- **Entities.** A login session expires, can be refreshed, and deactivation is
  one-way. A user has merged metadata, email confirmation and a recorded login. A
  spending record can be partly updated and has a validity rule. Each entity
  converts to and from a dictionary.
- **Repositories.** Each table is a class holding its rows. The query chains
  (`eq`, `lt` and `gt` filters, upsert, delete, update) are selections, rejections
  and in-place updates of those rows, and return the row counts the source
  returns.
- **Use cases.** Authentication and spending use cases orchestrate the repositories,
  mutate the fetched entity objects, and return `Result` values in place of the
  raised domain errors.
- **Data table.** The paginated data table has its page count, slicing and clamping
  rules.
- **Error handling.** The application error record renders itself as text. The
  service classifies the client library's errors by cascades of substring tests
  and exact comparisons, and it keeps a logged-in user id.
- **Configuration.** The `.env` file is read line by line into the environment,
  then the configuration is built from the environment and validated.
- **UI component state.** A form keeps a map of field errors. A dialog keeps an
  open flag and caches its control.

Time is an integer `now` passed in. Fresh ids are parameters. `isoformat` and
`fromisoformat` are the identity on those integers. Whether a store's client call
succeeds is the repository's `online` flag, which is fixed for the duration of a
use-case call. A validator, a client call that fails, and the lines of the `.env`
file all become parameters.

Modules, one file each: `Wrappers`, `Text` (the Python string builtins used),
`PyValues` (dictionary values), `Sessions`, `Users`, `Spendings`, `Tables` (the
query engine), `SessionRepositories`, `UserRepositories`, `SpendingRepositories`,
`AuthUseCases`, `SpendingUseCases`, `DataTables`, `AppErrors`, `SupabaseServices`,
`Configs` and `Components`.

## Model

| member | source | states |
|---|---|---|
| Sessions.Create | src/core/entities/session.py:22-43 | the new session has the given ids and tokens, expires `ttl` seconds after `now`, was created and last accessed at `now`, and is active |
| Sessions.CreatedValidUntilExpiry | src/core/entities/session.py:22-51 | a session just created with a non-negative lifetime is valid at every time up to its expiry |
| Sessions.ExpiryIsPermanent | src/core/entities/session.py:45-51 | expiry is strict `now > expires_at`; once expired a session stays expired, and invalid, at every later time |
| Sessions.Session.constructor | src/core/entities/session.py:10-20 | the dataclass object holds exactly the given field values |
| Sessions.Session.RefreshAccess | src/core/entities/session.py:53-57 | the object's new state is `Refreshed` of its old state |
| Sessions.Refreshed | src/core/entities/session.py:53-57 | sets the token and an expiry `ttl` after `now` and touches `last_accessed`; ids, refresh token, creation time and the active flag are kept; the result is valid now iff the session was active and `ttl >= 0`, so an inactive session is never revived |
| Sessions.Session.UpdateLastAccessed | src/core/entities/session.py:59-61 | the object's new state is `Touched` of its old state |
| Sessions.Touched | src/core/entities/session.py:59-61 | sets `last_accessed` and leaves validity unchanged at every time |
| Sessions.Session.Invalidate | src/core/entities/session.py:63-65 | the object's new state is `Deactivated` of its old state |
| Sessions.Deactivated | src/core/entities/session.py:63-65 | the session is inactive and invalid at every time |
| Sessions.DeactivateIdempotent | src/core/entities/session.py:63-65 | invalidating twice is invalidating once, and only `is_active` changes |
| Sessions.Session.ExtendExpiration | src/core/entities/session.py:67-69 | the object's new state is `Extended` of its old state |
| Sessions.Extended | src/core/entities/session.py:67-69 | the expiry grows by exactly the given seconds, and nothing else changes |
| Sessions.IsExpired | src/core/entities/session.py:45-47 | strict `now > expires_at`; `ExpiryIsPermanent` proves it stays true at every later time |
| Sessions.IsValid | src/core/entities/session.py:49-51 | active and not expired; `CreatedValidUntilExpiry` proves a new session valid up to its expiry, `ExpiryIsPermanent` invalid after it |
| Sessions.ToDict | src/core/entities/session.py:71-84 | the keys are the ones `from_dict` reads plus `is_expired` and `is_valid`, which hold `now > expires_at` and `is_active and now <= expires_at` |
| Sessions.FromDict | src/core/entities/session.py:86-97 | succeeds exactly on dictionaries that are well formed; a missing `is_active` reads as true |
| Sessions.DictRoundTrip | src/core/entities/session.py:71-97 | `from_dict(to_dict(s)) == s` |
| Sessions.FromDictIgnoresOtherKeys | src/core/entities/session.py:82-97 | keys `from_dict` does not read, such as `is_expired` and `is_valid`, do not affect its result |
| Users.Create | src/core/entities/user.py:21-33 | the new user is unconfirmed, has no last login, has metadata `{}` when none is given, and has equal creation and update times |
| Users.MergeMetadata | src/core/entities/user.py:35-38 | right-biased merge: the keys are the union, the patch's values win, other existing keys keep their values, and missing metadata counts as empty |
| Users.MergeIdempotent | src/core/entities/user.py:35-38 | merging the same patch twice is merging it once |
| Users.User.constructor | src/core/entities/user.py:10-19 | the dataclass object holds exactly the given field values |
| Users.User.UpdateMetadata | src/core/entities/user.py:35-38 | the object's new state is `MetadataMerged` of its old state |
| Users.MetadataMerged | src/core/entities/user.py:35-38 | the metadata becomes the merge and `updated_at` becomes `now`; no other field changes |
| Users.User.ConfirmEmail | src/core/entities/user.py:40-43 | the object's new state is `Confirmed` of its old state |
| Users.Confirmed | src/core/entities/user.py:40-43 | the user is confirmed and updated at `now`; no other field changes |
| Users.ConfirmIdempotent | src/core/entities/user.py:40-43 | confirming twice at the same time is confirming once |
| Users.User.RecordLogin | src/core/entities/user.py:45-48 | the object's new state is `LoggedIn` of its old state |
| Users.LoggedIn | src/core/entities/user.py:45-48 | `last_login` and `updated_at` become `now`; id, email, metadata, confirmation and creation time are kept |
| Users.ToDict | src/core/entities/user.py:50-60 | exactly the keys `from_dict` reads; `last_login` and `metadata` are `None` exactly when the user has none |
| Users.FromDict | src/core/entities/user.py:62-72 | succeeds exactly on well-formed dictionaries; `last_login` is `None` exactly when the key is missing or falsy |
| Users.DictRoundTrip | src/core/entities/user.py:50-72 | `from_dict(to_dict(u)) == u`, a missing last login included |
| Spendings.Create | src/core/entities/spending.py:25-53 | the date defaults to `now`, creation and update times equal `now`, and every other field is copied |
| Spendings.TotalCost | src/core/entities/spending.py:55-58 | `amount * price`: not negative when both factors are not, and 0 when either is 0 |
| Spendings.IsValid | src/core/entities/spending.py:88-96 | amount positive, price not negative, and store, product and user id non-empty once stripped; `IsValidIff` states the same test as each text holding a non-whitespace character |
| Spendings.IsValidIff | src/core/entities/spending.py:88-96 | valid iff the amount is positive, the price is not negative, and store, product and user id each hold a non-whitespace character |
| Spendings.ValidTotalCostNonNegative | src/core/entities/spending.py:55-58 | the total cost `amount * price` of a valid record is never negative |
| Spendings.Spending.constructor | src/core/entities/spending.py:10-24 | the dataclass object holds exactly the given field values |
| Spendings.Spending.Update | src/core/entities/spending.py:60-86 | the object's new state is `Updated` of its old state |
| Spendings.Updated | src/core/entities/spending.py:60-86 | each field given a value takes it and every `None` keeps the field; item id, user id and creation time never change; `updated_at` is always `now` |
| Spendings.UpdateNothingTouchesOnlyTimestamp | src/core/entities/spending.py:60-86 | an update with every argument `None` changes only `updated_at` |
| Spendings.ToDict | src/core/entities/spending.py:98-113 | the keys `from_dict` reads plus `total_cost`, which holds `TotalCost`; `category` and `notes` are `None` exactly when unset |
| Spendings.FromDict | src/core/entities/spending.py:115-129 | succeeds exactly on well-formed dictionaries |
| Spendings.DictRoundTrip | src/core/entities/spending.py:98-129 | `from_dict(to_dict(s)) == s` |
| Spendings.FromDictIgnoresOtherKeys | src/core/entities/spending.py:98-129 | keys `from_dict` does not read, such as `total_cost`, do not affect its result |
| Tables.UpsertFinds | src/infrastructure/repositories/session_repository_impl.py:17-35 | an upsert keeps the table keyed, leaves exactly the new row under its key, and leaves every other key's rows unchanged |
| SessionRepositories.Stored | src/infrastructure/repositories/session_repository_impl.py:17-35 | the stored row equals the saved session except for its creation time |
| SessionRepositories.SessionRepository.constructor | src/infrastructure/repositories/session_repository_impl.py:14-15 | the table holds the given rows, which are keyed by session id |
| SessionRepositories.SessionRepository.Save | src/infrastructure/repositories/session_repository_impl.py:17-35 | an upsert by `session_id`: afterwards that id holds exactly the returned row and other ids are unchanged; an unreachable store raises "Failed to save session" and writes nothing |
| SessionRepositories.SessionRepository.FindById | src/infrastructure/repositories/session_repository_impl.py:37-45 | the stored row with that id, found whenever one exists; `None` when the store is unreachable |
| SessionRepositories.SessionRepository.FindByUserId | src/infrastructure/repositories/session_repository_impl.py:47-57 | the user's rows, or `[]` when the store is unreachable |
| SessionRepositories.SessionRepository.FindActiveByUserId | src/infrastructure/repositories/session_repository_impl.py:59-71 | exactly the user's active rows with `expires_at > now` |
| SessionRepositories.SessionRepository.FindByAccessToken | src/infrastructure/repositories/session_repository_impl.py:73-84 | a stored row holding that access token, if any |
| SessionRepositories.SessionRepository.FindByRefreshToken | src/infrastructure/repositories/session_repository_impl.py:86-97 | a stored row holding that refresh token, if any |
| SessionRepositories.SessionRepository.Invalidate | src/infrastructure/repositories/session_repository_impl.py:99-111 | deactivates the row with that id; returns true iff such a row exists, even one already inactive |
| SessionRepositories.SessionRepository.InvalidateAllByUserId | src/infrastructure/repositories/session_repository_impl.py:113-126 | deactivates the user's active rows and returns how many there were |
| SessionRepositories.InvalidateAllSettles | src/infrastructure/repositories/session_repository_impl.py:113-126 | afterwards the user has no active rows, so a second call counts 0, and other users' rows are untouched |
| SessionRepositories.SessionRepository.DeleteExpired | src/infrastructure/repositories/session_repository_impl.py:128-137 | removes exactly the rows with `expires_at < now` and returns their number |
| SessionRepositories.DeleteExpiredSettles | src/infrastructure/repositories/session_repository_impl.py:128-137 | afterwards no row expires before `now`, so a second call counts 0, and the remaining rows are exactly those with `expires_at >= now` |
| SessionRepositories.SessionRepository.DeleteByUserId | src/infrastructure/repositories/session_repository_impl.py:139-148 | removes the user's rows and returns their number |
| SessionRepositories.DeleteByUserEmpties | src/infrastructure/repositories/session_repository_impl.py:139-148 | afterwards `find_by_user_id(u)` is empty and other users' rows are unchanged |
| SessionRepositories.ActiveQueryBoundary | src/infrastructure/repositories/session_repository_impl.py:59-71 | for any rows, an active session at `now == expires_at` is valid but the active query of its user does not return it |
| SessionRepositories.SessionRepository.UpdateLastAccessed | src/infrastructure/repositories/session_repository_impl.py:150-162 | touches the row with that id; true iff it exists |
| SessionRepositories.SessionRepository.RefreshAccessToken | src/infrastructure/repositories/session_repository_impl.py:164-184 | refreshes the row with that id; true iff it exists |
| SessionRepositories.RefreshedRowState | src/infrastructure/repositories/session_repository_impl.py:164-184 | the matched row gets the new token and `expires_at = now + ttl` and is valid now exactly when it was active |
| UserRepositories.Stored | src/infrastructure/repositories/user_repository_impl.py:18-35 | the stored row equals the saved user except for its timestamps, and `updated_at` is `now` |
| UserRepositories.UserRepository.constructor | src/infrastructure/repositories/user_repository_impl.py:15-16 | the table holds the given rows, which are keyed by id |
| UserRepositories.UserRepository.Save | src/infrastructure/repositories/user_repository_impl.py:18-35 | an upsert by `id`: afterwards that id holds exactly the returned row and other ids are unchanged; an unreachable store raises and writes nothing |
| UserRepositories.UserRepository.FindById | src/infrastructure/repositories/user_repository_impl.py:37-45 | present iff the store is reachable and holds a row with that id |
| UserRepositories.UserRepository.FindByEmail | src/infrastructure/repositories/user_repository_impl.py:47-55 | present iff the store is reachable and holds a row with that email |
| UserRepositories.UserRepository.ExistsByEmail | src/infrastructure/repositories/user_repository_impl.py:57-63 | true iff some stored user has that email, that is iff `find_by_email` finds one |
| UserRepositories.UserRepository.Delete | src/infrastructure/repositories/user_repository_impl.py:65-71 | true iff the user existed; afterwards no row has that id and other ids are unchanged |
| UserRepositories.UserRepository.UpdateMetadata | src/infrastructure/repositories/user_repository_impl.py:93-102 | replaces the targeted user's metadata wholesale; true iff the user exists |
| UserRepositories.WholesaleIsNotMerge | src/infrastructure/repositories/user_repository_impl.py:93-102 | the repository stores the given metadata as it is: every stored key the patch lacks is erased, while the entity's merge keeps it with its value |
| UserRepositories.UserRepository.ConfirmEmail | src/infrastructure/repositories/user_repository_impl.py:104-113 | confirms the targeted user; true iff the user exists |
| UserRepositories.UserRepository.RecordLogin | src/infrastructure/repositories/user_repository_impl.py:115-124 | records the targeted user's login; true iff the user exists |
| UserRepositories.TargetedUpdates | src/infrastructure/repositories/user_repository_impl.py:104-124 | `confirm_email` and `record_login` change only the targeted user's flag or timestamps, and every other row stays as it was |
| SpendingRepositories.Categories | src/infrastructure/repositories/spending_repository_impl.py:180-190 | the user's distinct non-empty categories, each once |
| SpendingRepositories.Stored | src/infrastructure/repositories/spending_repository_impl.py:17-37 | the stored row equals the saved record except for its timestamps, and `updated_at` is `now` |
| SpendingRepositories.SpendingRepository.constructor | src/infrastructure/repositories/spending_repository_impl.py:14-15 | the table holds the given rows, which are keyed by item id |
| SpendingRepositories.SpendingRepository.Save | src/infrastructure/repositories/spending_repository_impl.py:17-37 | an upsert by `item_id`; an unreachable store raises and writes nothing |
| SpendingRepositories.SpendingRepository.FindById | src/infrastructure/repositories/spending_repository_impl.py:39-47 | present iff the store is reachable and holds a row with that id |
| SpendingRepositories.SpendingRepository.Delete | src/infrastructure/repositories/spending_repository_impl.py:115-121 | removes the row with that id; true iff it existed |
| SpendingRepositories.SpendingRepository.GetCategoriesByUserId | src/infrastructure/repositories/spending_repository_impl.py:180-190 | holds exactly the user's non-empty categories, or nothing when the store is unreachable |
| SpendingRepositories.SpendingRepository.SumByUserAndCategory | src/infrastructure/repositories/spending_repository_impl.py:168-178 | the sum of the prices of the user's records in that category |
| AuthUseCases.SessionCheck | src/core/use_cases/auth_use_cases.py:85-95 | no error iff the session exists and is valid; absent gives `InvalidSessionError`; expired gives `SessionExpiredError`; inactive and unexpired gives `InvalidSessionError("Session is invalid")` |
| AuthUseCases.ExpiryCheckedFirst | src/core/use_cases/auth_use_cases.py:89-95 | an inactive session that has also expired is reported as expired |
| AuthUseCases.SessionErrorOrder | src/core/use_cases/auth_use_cases.py:85-95 | the three refusals in order: not found, then expired, then inactive |
| AuthUseCases.RefreshCheck | src/core/use_cases/auth_use_cases.py:113-117 | no error iff a session matches and is active, with the two messages of the source |
| AuthUseCases.RefreshRevivesLapsedSession | src/core/use_cases/auth_use_cases.py:113-122 | an active but expired session passes the check and is valid again after the refresh |
| AuthUseCases.AuthUseCases.constructor | src/core/use_cases/auth_use_cases.py:22-28 | the use cases hold the two given repositories |
| AuthUseCases.AuthUseCases.RegisterUser | src/core/use_cases/auth_use_cases.py:30-42 | a taken email gives `UserAlreadyExistsError` and saves nothing; otherwise exactly one new unconfirmed user with that email is saved |
| AuthUseCases.AuthUseCases.LoginUser | src/core/use_cases/auth_use_cases.py:44-73 | an unknown email, or an unconfirmed user when confirmation is required, is refused with no write; otherwise the user is saved with its login recorded before an active session owned by the user with the 3600-second lifetime is saved; a failed session save leaves the user write in place |
| AuthUseCases.AuthUseCases.LogoutUser | src/core/use_cases/auth_use_cases.py:75-77 | deactivates the session; true iff it exists |
| AuthUseCases.AuthUseCases.LogoutAllUserSessions | src/core/use_cases/auth_use_cases.py:79-81 | deactivates the user's active sessions and returns their count |
| AuthUseCases.AuthUseCases.GetUserBySession | src/core/use_cases/auth_use_cases.py:83-104 | refused as `SessionCheck` says with no write; otherwise the session's access time is saved before the owner is looked up, and a missing owner gives `UserNotFoundError` with the write kept |
| AuthUseCases.AuthUseCases.ValidateAccessToken | src/core/use_cases/auth_use_cases.py:159-180 | the same as `GetUserBySession`, looking the session up by access token |
| AuthUseCases.AuthUseCases.CheckTouchAndFindOwner | src/core/use_cases/auth_use_cases.py:89-104 | the shared tail of the two lookups: the check, the access-time write, then the owner lookup |
| AuthUseCases.AuthUseCases.RefreshSession | src/core/use_cases/auth_use_cases.py:106-122 | refused with no write when no session has the refresh token or it is inactive; otherwise the refreshed session is saved and is active with the new token |
| AuthUseCases.AuthUseCases.ConfirmUserEmail | src/core/use_cases/auth_use_cases.py:124-131 | an unknown id gives `UserNotFoundError` with no write; otherwise the confirmed user is saved |
| AuthUseCases.AuthUseCases.UpdateUserMetadata | src/core/use_cases/auth_use_cases.py:133-140 | an unknown id gives `UserNotFoundError` with no write; otherwise the user with merged metadata is saved |
| AuthUseCases.AuthUseCases.DeleteUserAccount | src/core/use_cases/auth_use_cases.py:142-153 | an unknown user gives `UserNotFoundError` with no deletion; otherwise all the user's sessions are deleted, then the user, and the user delete's result is returned |
| AuthUseCases.AuthUseCases.CleanupExpiredSessions | src/core/use_cases/auth_use_cases.py:155-157 | removes the sessions that expire before `now` and returns their number |
| SpendingUseCases.OwnedLookup | src/core/use_cases/spending_use_cases.py:48-58 | success iff the record exists and belongs to the user; absent gives `SpendingNotFoundError`, another owner gives `UnauthorizedSpendingAccessError` |
| SpendingUseCases.LookupMeans | src/core/use_cases/spending_use_cases.py:48-58 | on a keyed table the lookup succeeds iff the store holds a record with that id owned by that user, and returns that record |
| SpendingUseCases.OnlyOwnerPasses | src/core/use_cases/spending_use_cases.py:48-58 | no request by a user other than the owner passes the lookup |
| SpendingUseCases.SpendingUseCases.constructor | src/core/use_cases/spending_use_cases.py:15-16 | the use cases hold the given repository |
| SpendingUseCases.SpendingUseCases.AddSpending | src/core/use_cases/spending_use_cases.py:20-46 | an invalid record gives `InvalidSpendingDataError` and saves nothing; otherwise the new record is upserted, valid and owned by the user |
| SpendingUseCases.SpendingUseCases.GetSpendingById | src/core/use_cases/spending_use_cases.py:48-58 | success iff the table holds the record and it belongs to the user |
| SpendingUseCases.SpendingUseCases.UpdateSpending | src/core/use_cases/spending_use_cases.py:94-122 | ownership is checked first; an update that leaves the record invalid gives an error and saves nothing; otherwise the updated record is upserted |
| SpendingUseCases.SpendingUseCases.DeleteSpending | src/core/use_cases/spending_use_cases.py:124-128 | a missing record or a non-owner leaves the table unchanged; otherwise the record is removed |
| SpendingUseCases.SpendingUseCases.GetCategorySummary | src/core/use_cases/spending_use_cases.py:169-179 | the keys are exactly the user's non-empty categories, and each value is the sum of prices in that category |
| DataTables.PageCount | src/components/datatables.py:22-24 | the ceiling of rows over rows per page: enough pages for every row, no empty last page, and 0 pages exactly for 0 rows |
| DataTables.PageCountExamples | src/components/datatables.py:22-24 | 25 rows by 10 give 3 pages, by 5 give 5, 0 rows give 0, 1 row gives 1 |
| DataTables.Paginate | src/components/datatables.py:192-202 | start is `(p-1)*rpp` and end minus start is `rows_per_page` |
| DataTables.PySlice | src/components/datatables.py:185-190 | Python slicing: its length and elements for a start within the list |
| DataTables.BuildRows | src/components/datatables.py:185-190 | the page shows `min(rpp, num_rows - start)` rows from `start` on, and none when start is past the end |
| DataTables.LastPageRows | src/components/datatables.py:185-190 | the last page is not empty and holds at most `rows_per_page` rows |
| DataTables.LastOfTwentyFive | src/components/datatables.py:185-190 | page 3 of 25 rows by 10 has 5 rows, starting at row 20 |
| DataTables.ChosenPage | src/components/datatables.py:155-159 | a page number in `[1, num_pages]` is taken, anything else gives 1 |
| DataTables.NonNumericPageIsFirst | src/components/datatables.py:155-159 | a non-integer page text gives page 1 |
| DataTables.ChosenRowsPerPage | src/components/datatables.py:120-135 | a typed number in `[1, num_rows]` is taken, anything else gives 10 |
| DataTables.PageAfterUpdate | src/components/datatables.py:261-265 | the page resets to 1 when it exceeds the page count or there are no pages, and is kept otherwise |
| DataTables.DataTableComponent.constructor | src/components/datatables.py:9-24 | page 1 with the page count of the given rows, the first page's rows selected, the label "1" shown, the page field hidden, and no row count text until the first redraw |
| DataTables.DataTableComponent.RefreshData | src/components/datatables.py:204-217 | the shown rows, the "Total Rows" text and the "page/pages" label match the current page, the label is shown and the field hidden; nothing else changes |
| DataTables.DataTableComponent.SetPage | src/components/datatables.py:145-164 | a given page is clamped as `ChosenPage` says; otherwise the page moves by `delta`; with no page and `delta == 0` nothing changes |
| DataTables.DataTableComponent.NextPage | src/components/datatables.py:166-169 | below the last page it moves forward one page and redraws; on the last page nothing changes; rows, sizes and field texts are kept, and a page in range stays in range |
| DataTables.DataTableComponent.PrevPage | src/components/datatables.py:171-174 | above page 1 it moves back one page and redraws; on page 1 nothing changes; rows, sizes and field texts are kept, and a page in range stays in range |
| DataTables.DataTableComponent.GotoFirstPage | src/components/datatables.py:176-178 | the page becomes 1 and is redrawn; rows, sizes, page count and field texts are kept |
| DataTables.DataTableComponent.GotoLastPage | src/components/datatables.py:180-182 | the page becomes the last one, at least 1, and is redrawn; rows, sizes, page count and field texts are kept |
| DataTables.DataTableComponent.SetRowsPerPage | src/components/datatables.py:120-143 | the rows per page become `ChosenRowsPerPage` and the rows field shows it, the page count is recomputed, the page resets to 1 and is redrawn; the rows and the page field text are kept |
| DataTables.DataTableComponent.UpdateData | src/components/datatables.py:252-271 | new rows and page count, with the page as `PageAfterUpdate` says, redrawn; rows per page and field texts are kept |
| DataTables.DataTableComponent.TogglePageField | src/components/datatables.py:228-239 | hides the label and shows the page field holding the current page; page, rows, sizes, shown rows, label, count text and rows field are kept |
| DataTables.DataTableComponent.HidePageField | src/components/datatables.py:246-250 | hides the page field and shows the label; every other field is kept |
| DataTables.DataTableComponent.OnPageFieldSubmit | src/components/datatables.py:241-244 | goes to the submitted page, clamped as `ChosenPage` says, and redraws; rows, sizes and field texts are kept |
| Wrappers.MapGet | src/exceptions.py:20-23 | `dict.get` (and `os.getenv`): present iff the key is, with its value |
| AppErrors.NewAppError | src/exceptions.py:18-24 | keeps the dictionary; each field is the dictionary's entry, `None` when its key is missing |
| AppErrors.Piece | src/exceptions.py:27-30 | the prefixed field when it is truthy, nothing otherwise |
| AppErrors.Composed | src/exceptions.py:26-31 | empty iff no field is truthy; starts with `Error {code}:` when the code is truthy, and otherwise with a line break when not empty |
| AppErrors.Repr | src/exceptions.py:26-32 | never empty; "Empty error" exactly when no field is truthy; otherwise the composed text |
| AppErrors.ReprExamples | src/exceptions.py:26-32 | code only gives `Error C:`, message only gives `\nMessage: M`, and empty or missing fields give "Empty error" |
| AppErrors.Json | src/exceptions.py:34-40 | the dictionary the error was built from |
| AppErrors.JsonReturnsInput | src/exceptions.py:18-40 | `json()` returns the original dictionary with all its keys |
| SupabaseServices.FirstContaining | src/services/supabase_service.py:157-170 | an `if/elif` substring cascade: the first rule whose text occurs wins, the fallback when none does |
| SupabaseServices.LoginFailure | src/services/supabase_service.py:157-176 | an `AuthInvalidCredentialsError` without the "You must provide" text is swallowed, and with it raises `InvalidCredentials`; other errors give `Generic` |
| SupabaseServices.LoginClassification | src/services/supabase_service.py:157-170 | the five login texts in order, each winning over every later one, and `Generic` when none occurs |
| SupabaseServices.RegistrationFailure | src/services/supabase_service.py:234-250 | any error other than `AuthApiError` gives `Generic`; "Unable to validate email address" gives `EmailNotValid` unless the already-registered text occurs |
| SupabaseServices.RegistrationAgreesWithLogin | src/services/supabase_service.py:234-248 | without the email-format text, registration classifies an `AuthApiError` exactly as login does |
| SupabaseServices.SyncClientFailure | src/services/supabase_service.py:99-106 | "Invalid URL" in a `SupabaseException` gives `SupabaseApi`; anything else gives `Generic` |
| SupabaseServices.WriteFailure | src/services/supabase_service.py:348-364 | each of the three exceptions iff the message equals its text exactly, `Generic` otherwise; `update` (377-387) and `insert` (398-408) share the cascade |
| SupabaseServices.WriteFailureIsExact | src/services/supabase_service.py:350-362 | any message that is the row-level security text followed by more text is `Generic`: the write cascade compares whole messages |
| SupabaseServices.SpendingsSupabaseDatabase.constructor | src/services/supabase_service.py:79-87 | no user is logged in and there is no client yet |
| SupabaseServices.SpendingsSupabaseDatabase.SyncClient | src/services/supabase_service.py:89-107 | records URL and key; on failure raises `SyncClientFailure`'s kind, otherwise has a client |
| SupabaseServices.SpendingsSupabaseDatabase.HandleLogin | src/services/supabase_service.py:145-176 | a successful sign-in records the response's user id; a failed one keeps the id and raises what `LoginFailure` gives |
| SupabaseServices.SpendingsSupabaseDatabase.HandleLogout | src/services/supabase_service.py:208-215 | a successful sign-out clears the user id; a failing one leaves it and does not raise |
| SupabaseServices.SpendingsSupabaseDatabase.FetchAllData | src/services/supabase_service.py:310-322 | with no user raises `UserNotLogged`; otherwise exactly the user's rows |
| Configs.ParseEnvLine | src/shared/config/config.py:86-91 | no entry iff the stripped line is blank, a comment, or has no `=`; the key never holds `=` |
| Configs.ParseEnvLineSplits | src/shared/config/config.py:87-91 | the split is at the first `=`: the key is the stripped text before it, the value the unquoted text after it |
| Configs.ValueKeepsLaterEquals | src/shared/config/config.py:89-91 | `KEY=value` gives the key and the unquoted value, whatever `=` the value holds |
| Configs.CommentIsSkipped | src/shared/config/config.py:88 | every line starting with `#` is skipped, whatever follows, an `=` included |
| Configs.SetIfUnset | src/shared/config/config.py:92-93 | sets the variable only for a non-empty key whose value is unset or empty; never removes a variable or overwrites a non-empty one |
| Configs.ApplyLine | src/shared/config/config.py:86-93 | one line's effect on the environment, never overwriting a non-empty value |
| Configs.NeverOverwrites | src/shared/config/config.py:86-93 | reading a whole file never removes a variable nor changes a non-empty one |
| Configs.FirstValueWins | src/shared/config/config.py:86-93 | a variable the file sets keeps its first non-empty value through the rest of the file |
| Configs.Environment.constructor | src/shared/config/config.py:47-49 | the environment holds the given variables |
| Configs.Environment.LoadEnvFile | src/shared/config/config.py:81-93 | the loop over the lines leaves the environment that applying the lines in order gives |
| Configs.ConfigFrom | src/shared/config/config.py:51-79 | a missing or empty `SUPABASE_URL`, then `SUPABASE_ANON_KEY`, gives its error; success iff both are set and the window sizes parse; `debug` iff the lowercased value is "true", false by default |
| Configs.DefaultsValidate | src/shared/config/config.py:60-106 | without the optional variables the defaults (390 by 844, production, no debug) apply and pass validation |
| Configs.Environment.FromEnvironment | src/shared/config/config.py:43-79 | loads the file when there is one, then builds the configuration from the environment |
| Configs.Validate | src/shared/config/config.py:97-106 | passes iff the URL starts with `http://` or `https://`, the key has at least 10 characters and the window is at least 320 by 480 |
| Configs.IsDevelopment | src/shared/config/config.py:108-110 | the lowercased environment is `development`, `dev` or `local`; `NeverBoth` proves it excludes production |
| Configs.IsProduction | src/shared/config/config.py:112-114 | the lowercased environment is `production` or `prod`; `NeverBoth` proves it excludes development |
| Configs.NeverBoth | src/shared/config/config.py:108-114 | no environment name is both a development and a production one |
| Components.Validated | src/presentation/components/base_component.py:77-85 | the field holds the error iff the validator's result is truthy, and every other field keeps its entry |
| Components.ValidatedIdempotent | src/presentation/components/base_component.py:77-85 | validating a field twice with the same result is validating it once |
| Components.LastValidationWins | src/presentation/components/base_component.py:77-85 | after a sequence of validations a field holds an error iff its last validation failed, and the error is the last one |
| Components.UnvalidatedFieldKept | src/presentation/components/base_component.py:80-84 | a field never validated keeps its entry |
| Components.FormComponent.constructor | src/presentation/components/base_component.py:72-75 | the form starts with no errors |
| Components.FormComponent.ValidateField | src/presentation/components/base_component.py:77-85 | returns true iff the result is falsy, and the error map becomes `Validated` of the old one |
| Components.FormComponent.HasErrors | src/presentation/components/base_component.py:87-89 | true iff some field has an error |
| Components.FormComponent.GetErrors | src/presentation/components/base_component.py:91-93 | the current error map, returned as a value, so the caller cannot change the form through it |
| Components.FormComponent.ClearErrors | src/presentation/components/base_component.py:95-97 | no error is left and `has_errors` is false |
| Components.GotControl | src/presentation/components/base_component.py:25-29 | the cached control when there is one; otherwise a new build that becomes the cached control and the dialog |
| Components.Refreshed | src/presentation/components/base_component.py:31-35 | the cache is cleared, and the last dialog and the open flag stay |
| Components.BuildsOnceUntilRefresh | src/presentation/components/base_component.py:25-35 | a second `get_control` returns the same control and changes nothing; after `refresh` the next call builds a new one |
| Components.Opened | src/presentation/components/base_component.py:182-189 | a no-op when open; otherwise the control is on the page, marked open, and the flag is set |
| Components.Closed | src/presentation/components/base_component.py:191-196 | a no-op unless open and built; otherwise the dialog and the flag are cleared |
| Components.OpenCloseIdempotent | src/presentation/components/base_component.py:182-196 | opening twice is opening once, and closing twice is closing once |
| Components.OpenCloseOpen | src/presentation/components/base_component.py:182-196 | closing a dialog just opened takes effect, and opening it again reuses the same built control |
| Components.ConsistentPreserved | src/presentation/components/base_component.py:25-35 | every operation keeps the cached control equal to the last built dialog, and an open dialog built |
| Components.DialogComponent.constructor | src/presentation/components/base_component.py:154-159 | closed, with nothing built |
| Components.DialogComponent.GetControl | src/presentation/components/base_component.py:25-29 | the state and the result are those `GotControl` gives |
| Components.DialogComponent.Refresh | src/presentation/components/base_component.py:31-35 | the new state is `Refreshed` of the old one |
| Components.DialogComponent.Open | src/presentation/components/base_component.py:182-189 | the new state is `Opened` of the old one |
| Components.DialogComponent.Close | src/presentation/components/base_component.py:191-196 | the new state is `Closed` of the old one |
| Components.DialogComponent.IsOpen | src/presentation/components/base_component.py:198-200 | the open flag |

## Left out

- Row-to-entity mapping (`_map_to_entity` in the repositories) is left out: rows are
  the entity states themselves. As written, the session mapping passes an
  `updated_at` keyword that the `Session` dataclass does not declare
  (src/infrastructure/repositories/session_repository_impl.py:195), so every
  mapped session would raise a `TypeError`. The model follows the evident intent,
  where the mapping succeeds.
- The session table's `updated_at` column is not modelled, since no entity reads it.
- Row order is not modelled: `order("created_at", desc=True)` and the sorting of the
  category list are left out. Results are in table order.
- The database fills in `created_at` when a payload has none. The model works as if
  that default were the `now` of the call.
- Floating point is not modelled: prices and sums are `real`, so rounding is left
  out.
- Local time and UTC time are both the single integer `now`.
- `list_all`, `count` and the other spending queries and sums (date ranges, by
  category, stores, counts) are left out. They are not called by the modelled use
  cases, or they are float sums in the source.
- The spending use cases other than those named in the Model table are left out,
  as delegation or floating-point summaries.
- The client library's exception objects are not modelled: only their class and the
  text the service inspects are kept. The async variants, resending verification
  and password reset are left out as near-copies of the modelled cascades.
- `Text.Lower` lowercases only A-Z and the Kelvin sign. `int()` accepts only ASCII
  digits. Full Unicode case mapping and other decimal digits are left out.
- `AppError` calls `Exception.__init__(self, str(self))`; the exception message is
  not modelled. Dictionary values other than strings are left out.
- Caching by `get_config`, reading the `.env` file from disk, and turning an I/O
  error into a `ValueError` are left out. The file is given as its list of lines.
- DataTables.DataTableComponent.constructor: requires a positive rows-per-page,
  where the source would divide by zero, or count pages wrongly for a negative one.
- Sessions.FromDict and Spendings.FromDict: succeed only when each value has the
  field's type, such as a string, a boolean or a number. The source copies any
  value into the dataclass unchecked.
- The widgets of the data table are left out: its columns, `_safe_update` and the
  page refreshes. The rows are values, and the shown rows are a slice of them.
- FetchAllData returns rows as spending states, not the raw dictionaries.
- Async execution, logging, page updates and all other UI widgets are left out.
  Calls are sequential.
- A store's reachability is fixed for a whole use-case call. A client that fails
  halfway through a call is not modelled.
