# Vendor dashboard: authenticated client and page logic, in Dafny

This project models the logic core of a vendor dashboard, a browser single-page app that shows orders, transactions and customer queries from a REST backend. It covers six pieces:

- **The authenticated HTTP client** (`Http.dfy`), a class `Http.Client`. It covers:
  - the persisted token store (`get`/`set`/`clear` of one storage key);
  - the request interceptor, which attaches `Authorization: Bearer <access>`;
  - the response interceptor's single-flight refresh. The first 401 on a request not yet retried sets `isRefreshing` and starts one refresh call. Later 401s park on `queue`. A successful refresh stores the new access token beside the old refresh token, releases the queue and re-sends the originating request. A failed refresh clears the tokens and redirects to the login route.

  Each stretch of the async handler between two `await`s runs without interruption, so each stretch is one method. `inFlight` records the handlers suspended on the refresh call. The class invariant `Valid()` states that at most one refresh is outstanding and that `isRefreshing` says whether one is. Every step is proved to keep it.
- **Credential helpers** (`Auth.dfy`):
  - `isValidEmail`, proved equal to a positional reading of `^[^\s@]+@[^\s@]+\.[^\s@]+$`;
  - `validatePassword`, with its ordered checks and fixed messages;
  - `passwordsMatch`;
  - `isAuthenticated`, `getAccessToken` and `logout`, all over the client's token store.
- **The sign-up form** (`Signup.dfy`): the single-field update, the four ordered checks of `validateForm` (the first failure wins) and the submit decision.
- **The queries list filter** (`Queries.dfy`): a search over message and id, and a status derived from the reply.
- **The transactions search** (`Transactions.dfy`).
- **The orders pagination arithmetic** (`Orders.dfy`).

Shared pieces:

- `Text.dfy` holds the JavaScript string operations these rely on: the whitespace class that `\s` and `trim` share, `toLowerCase`, `includes`, `trim` itself and `String(n)`.
- `Lists.dfy` holds `Array.prototype.filter` and its general properties: order-preserving, membership, idempotence.

The model follows the code as written, not an idealised single-flight client:

- the refresh token is kept and not rotated;
- a failed refresh leaves the queue as it was (parked requests are neither released nor rejected, and a later successful refresh would release them);
- released requests are re-sent without the retry mark, so a second 401 on them can start another refresh;
- a refresh response without an access token is stored anyway, as an empty access token. The request interceptor then leaves the Authorization header alone, so the retried request and the released ones go out again with the token they carried before;
- when no refresh token is stored, every failing request goes through the failure path and redirects on its own, so the redirect is not once per cycle.

## Model

| member | source | states |
|---|---|---|
| `Http.Client.constructor` | src/lib/http.ts:47-48 | The client starts idle: not refreshing, empty queue, nothing in flight, store as persisted. |
| `Http.Client.Get` | src/lib/http.ts:12-19 | A pair is read back only from a stored, non-empty text that parses to it. Missing, empty or unparsable text reads as None, and the read never fails. |
| `Http.Client.Set` | src/lib/http.ts:21-23 | After `set(t)`, `get()` returns `t`. |
| `Http.Client.Clear` | src/lib/http.ts:25-27 | After `clear()`, nothing is stored and `get()` returns None. |
| `Http.Client.RedirectToLogin` | src/lib/http.ts:89 | Each redirect to the login route is recorded once. |
| `Http.Client.AttachAuth` | src/lib/http.ts:37-44 | With a non-empty stored access token, the config gains exactly the header `Authorization: Bearer <access>`. Otherwise it is unchanged. Other headers, the id and the retry mark are always kept. |
| `Http.WithBearer` | src/lib/http.ts:40-41 | Setting the Authorization header keeps the id, the retry mark and every other header, and the config then carries `Bearer <access>`. |
| `Http.Client.AttachAuthAll` | src/lib/http.ts:37-44 | The request interceptor applied to several configs, in order. With a non-empty stored access token, each output is its input with only the Authorization header set to `Bearer <access>`: every other header, the id and the retry mark are kept. Otherwise the configs go out unchanged. |
| `Http.Client.OnResponseError` | src/lib/http.ts:52-73 | Anything but a 401 on an unretried request is rethrown with no state change. While refreshing, a 401 appends one waiter and starts nothing. Otherwise it starts exactly one refresh, with the stored refresh token and the request marked retried, in the same step that sets `isRefreshing`. Without a refresh token it clears the tokens, redirects and ends idle, with the queue untouched. `Valid()` is kept. |
| `Http.Client.OnRefreshSucceeded` | src/lib/http.ts:75-93 | The store becomes {new access, old refresh}. The released requests are exactly the old queue, each once, none marked retried, and the queue is emptied. The originating request (marked retried) is returned for re-sending. The client is idle afterwards. |
| `Http.Client.OnRefreshFailed` | src/lib/http.ts:86-93 | The error goes back to the originating request, whose retried config is returned. The tokens are cleared, one redirect is recorded, the queue is left unchanged, and the client is idle afterwards. |
| `Http.Client.ResendAfterRefresh` | src/lib/http.ts:59-85 | After a refresh, the originating request and then every released request are re-sent. The store holds {new access, old refresh}, and no redirect is recorded. With a non-empty new access token, each re-sent config is its parked config with only the Authorization header replaced by `Bearer <new access>`. With an empty one, each goes out exactly as it was parked, still carrying whatever token it had before. |
| `Http.Client.OnUnauthorizedBurst` | src/lib/http.ts:55-73 | Many 401s before any refresh settles start at most one refresh in total. When one starts, it comes from the first request, and the rest queue in arrival order. While refreshing, every request queues. Either way the store and the redirect count are untouched. Without a refresh token, no refresh starts: every request takes the failure path, with one redirect each, an empty store and the queue untouched. An empty burst changes nothing. |
| `Http.Client.QueueBehindRefresh` | src/lib/http.ts:55-58 | While a refresh is under way, each 401 parks on the queue in arrival order, and nothing else changes. |
| `Http.Client.AbortEach` | src/lib/http.ts:61-93 | With no refresh token and no refresh under way, each 401 clears the store and redirects once, and none starts a refresh. |
| `Http.NoneStartedAfterFirst` | src/lib/http.ts:55-73 | A run of handler steps where only the first may start a refresh starts at most one, and none when the first does not either. |
| `Lists.Filter` | src/pages/Transactions.tsx:45-52 | `filter` keeps exactly the elements that pass, each as many times as it occurs, and never lengthens the list. |
| `Lists.FilterIdempotent` | src/pages/Transactions.tsx:45-52 | Filtering a filtered list again with the same test changes nothing. |
| `Text.ContainsIff` | src/pages/Queries.tsx:54 | `includes` holds exactly when the needle occurs at some index. |
| `Text.TrimEmptyIff` | src/pages/Signup.tsx:54 | `trim()` is empty exactly when every character is whitespace. |
| `Text.DecimalDigits` | src/pages/Queries.tsx:54 | `String(id)` is a non-empty string of digits. |
| `Auth.IsValidEmail` | src/lib/auth.ts:145-148 | The first `@` has plain text before it, plain text after it, and an inner `.` in the text after it. An accepted address is at least five characters long, as in `a@b.c`. |
| `Auth.IsValidEmailMatchesPattern` | src/lib/auth.ts:145-148 | `isValidEmail` holds exactly when the string splits as plain+ `@` plain+ `.` plain+, where plain means neither whitespace nor `@`. |
| `Auth.ValidEmailOneAt` | src/lib/auth.ts:146 | An accepted e-mail has exactly one `@`. |
| `Auth.ValidEmailNoWhitespace` | src/lib/auth.ts:146 | An accepted e-mail has no whitespace. |
| `Auth.ValidEmailParts` | src/lib/auth.ts:146 | For a string with one `@` and no whitespace, it is accepted exactly when the part before `@` is non-empty and the part after has a `.` that is neither its first nor its last character. |
| `Auth.ValidatePassword` | src/lib/auth.ts:151-169 | A valid result has no message. An invalid one has exactly one of the four fixed messages. |
| `Auth.ValidatePasswordIff` | src/lib/auth.ts:151-169 | Valid exactly when the length is at least 8 and the password has an ASCII lower-case letter, an upper-case letter and a digit. |
| `Auth.ValidatePasswordOrder` | src/lib/auth.ts:152-166 | A short password gets the length message whatever it contains. Otherwise a missing lower-case letter is reported before a missing upper-case letter, and that before a missing digit. |
| `Auth.PasswordsMatch` | src/lib/auth.ts:172-174 | Plain string equality. `PasswordsMatchIsEquivalence` states its properties. |
| `Auth.PasswordsMatchIsEquivalence` | src/lib/auth.ts:172-174 | `passwordsMatch` is reflexive, symmetric and transitive. |
| `Auth.GetAccessToken` | src/lib/auth.ts:120-122 | A token is returned only when it is the non-empty access token of the stored pair. |
| `Auth.IsAuthenticated` | src/lib/auth.ts:116-118 | The stored pair has a non-empty access token. `AuthenticatedIffToken` relates it to `getAccessToken()`. |
| `Auth.AuthenticatedIffToken` | src/lib/auth.ts:116-122 | `isAuthenticated()` holds exactly when `getAccessToken()` is non-null. |
| `Auth.Logout` | src/lib/auth.ts:111-114 | After `logout()`, the token key is removed, so no access or refresh token remains: `isAuthenticated()` is false and `getAccessToken()` is null. One redirect is recorded, and the refresh state is untouched. |
| `Signup.HandleInputChange` | src/pages/Signup.tsx:23-31 | The named field takes the value, every other field is unchanged, and the error banner is cleared. |
| `Signup.ValidateForm` | src/pages/Signup.tsx:33-60 | None when the form passes. Otherwise, the message of the first failing check. The password message falls back to 'Invalid password', so the message shown is never blank. The lemmas below state what it accepts and in which order it checks. |
| `Signup.ValidateFormSucceedsIff` | src/pages/Signup.tsx:33-60 | The form passes exactly when the e-mail matches the pattern, the password meets all four rules, the confirmation equals the password and the name has a non-whitespace character. |
| `Signup.ValidateFormFirstFailure` | src/pages/Signup.tsx:35-57 | Checks run e-mail, password, confirmation, name, and the first failure's message is reported. A password failure reports `validatePassword`'s own message, and a whitespace-only name gets 'Name is required'. |
| `Signup.BankDetailsIgnored` | src/pages/Signup.tsx:33-60 | The bank details never affect the verdict. |
| `Signup.HandleSubmit` | src/pages/Signup.tsx:62-73 | `signup` is called, with the form data, exactly when validation passes. Otherwise the validation message is shown. |
| `Queries.DerivedStatus` | src/pages/Queries.tsx:53 | The derived status is always "replied" or "pending", never anything else. |
| `Queries.FilterQueries` | src/pages/Queries.tsx:52-57 | `filteredQueries`: the items that match the search and the status filter, in their order. The lemmas below state its properties. |
| `Queries.DerivedStatusReplied` | src/pages/Queries.tsx:53 | The status is "replied" exactly when the reply has a non-whitespace character, and "pending" otherwise. |
| `Queries.FilterQueriesIsSubsequence` | src/pages/Queries.tsx:52-57 | The filtered list is an order-preserving subsequence of the items. |
| `Queries.FilterAllStatuses` | src/pages/Queries.tsx:55 | With the status filter "all", a query is kept exactly when it matches the search. |
| `Queries.ResolvedFilterEmpty` | src/pages/Queries.tsx:53-55 | The "resolved" filter always yields the empty list. |
| `Queries.EmptySearchKeepsAll` | src/pages/Queries.tsx:54 | An empty search with status "all" keeps every query. |
| `Queries.SearchIgnoresCase` | src/pages/Queries.tsx:54 | Search terms with the same lower-case form match the same queries. The message test compares lower-cased text. The id test is a plain substring test that only a digit term can pass. |
| `Queries.IdMatchTermUnchanged` | src/pages/Queries.tsx:54 | A term that matches an id's decimal text is the only term with its lower-case form. |
| `Queries.FilterQueriesIgnoresCase` | src/pages/Queries.tsx:52-57 | Searches that differ only in letter case give the same list. |
| `Transactions.FilterTransactions` | src/pages/Transactions.tsx:45-52 | `filtered`: the items whose id, order or status contains the lower-cased search, in their order. The lemmas below state its properties. |
| `Transactions.FilterTransactionsIsSubsequence` | src/pages/Transactions.tsx:45-52 | The result is an order-preserving subsequence of the items. |
| `Transactions.FilterTransactionsMembers` | src/pages/Transactions.tsx:47-50 | A transaction is kept exactly when the lower-cased search occurs in `String(id)`, in `String(order)` or in the lower-cased status, with a missing status read as "". |
| `Transactions.EmptySearchKeepsAll` | src/pages/Transactions.tsx:46-51 | An empty search keeps every transaction. |
| `Transactions.SearchIgnoresCase` | src/pages/Transactions.tsx:46 | Searches that differ only in letter case give the same list. |
| `Transactions.FilterTransactionsIdempotent` | src/pages/Transactions.tsx:45-52 | Filtering the filtered list again with the same search returns it unchanged. |
| `Orders.TotalPages` | src/pages/Orders.tsx:28-29 | The page count is the ceiling of n / 10: the pages hold all n orders, and one page fewer would not. |
| `Orders.PrevPage` | src/pages/Orders.tsx:158 | Previous goes to `max(1, page - 1)`. `ClampsBound` and `ClampsStayInRange` state its bounds. |
| `Orders.NextPage` | src/pages/Orders.tsx:181 | Next goes to `min(totalPages, page + 1)`. `ClampsBound` and `ClampsStayInRange` state its bounds. |
| `Orders.PrevDisabled` | src/pages/Orders.tsx:159 | Previous is disabled on page 1. `DisabledExactlyWhenStuck` relates this to the clamp. |
| `Orders.NextDisabled` | src/pages/Orders.tsx:182 | Next is disabled on page `totalPages`. `DisabledExactlyWhenStuck` relates this to the clamp. |
| `Orders.ShowingStart` | src/pages/Orders.tsx:151 | The first order number shown. `ShowingWithinCount` and `ShowingRangeOfPage` state its range. |
| `Orders.ShowingEnd` | src/pages/Orders.tsx:152 | The last order number shown. `ShowingWithinCount` and `ShowingRangeOfPage` state its range. |
| `Orders.PageNumbers` | src/pages/Orders.tsx:166 | The page buttons' numbers. `PageNumbersAreOneToTotal` states them. |
| `Orders.ClampsBound` | src/pages/Orders.tsx:158-181 | Previous never goes below page 1. Next never goes above `totalPages`. |
| `Orders.ClampsStayInRange` | src/pages/Orders.tsx:158-181 | From a page in 1..totalPages, Previous and Next land in 1..totalPages, at most one page away. |
| `Orders.DisabledExactlyWhenStuck` | src/pages/Orders.tsx:155-187 | Previous is disabled exactly on page 1 and Next exactly on the last page, which are the pages where pressing the button would not move. |
| `Orders.NextOnEmptyList` | src/pages/Orders.tsx:178-183 | With no orders, `totalPages` is 0, yet Next is enabled on page 1 and moves to page 0. |
| `Orders.ShowingWithinCount` | src/pages/Orders.tsx:151-152 | Both ends of the "Showing" range are at most n. |
| `Orders.ShowingRangeOfPage` | src/pages/Orders.tsx:151-152 | For n > 0 and a page in 1..totalPages: 1 <= start <= end <= n, and the range starts at the page's first order. It holds min(10, the orders left) orders, so at most ten. |
| `Orders.PageNumbersAreOneToTotal` | src/pages/Orders.tsx:166 | The page buttons are exactly 1..totalPages, strictly increasing. |

## Left out

- Network calls: `login`, `signup`, password reset, `getVendorProfile` and `updateVendorProfile` are left out, because each is a request to the backend and its outcome comes from the server. The error text of `login` and `signup` is collected by walking the server's JSON error body. The password-reset and profile calls use the response's `detail` field or a fixed message. The axios transport, base URL, default headers and 10-second timeout are left out as well.
- `localStorage`, `JSON.parse` and `JSON.stringify`:
  - the storage key is modelled as the field `stored`;
  - the two JSON functions are parameters of the client, and the client requires only that a stringified pair is non-empty and parses back to itself;
  - a parse that throws, or that yields something other than a pair, reads as None;
  - a missing `access` or `refresh` field is represented by the empty string, which the code treats the same way (both are falsy).
- `window.location.href = '/'` is recorded as the counter `redirects`. Navigation itself is not modelled.
- Promise scheduling: each stretch between `await`s is one atomic step, and nothing is claimed about timing. A parked waiter is identified by its request config, and releasing it hands that config back for re-sending.
- `ResendAfterRefresh` assumes that nothing else touches the store before the re-sent requests pass through the request interceptor.
- Request configs are values. The in-place mutation of the shared config object (its headers and `_retry`) is modelled as returning the updated config, so aliasing of that object is not captured.
- `toLowerCase` is modelled on ASCII letters only. Unicode case mapping is not modelled.
- Lengths count characters, not UTF-16 code units.
- `String(n)` is modelled for non-negative integer ids and order numbers. Exponent notation for very large numbers is not modelled.
- A query's `reply` and `message` are modelled as optional strings. `String(reply)` of a non-string value is not modelled.
- All rendering, icons, colours, toasts, loading flags and locale-dependent date formatting are left out. This includes the orders table, which lists every order whatever the page. The success message and the delayed navigation after sign-up are left out too.
