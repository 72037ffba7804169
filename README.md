# A model of the banking app's server core

This project models the core of a small online banking application and
proves properties about it. The application is a Next.js app with a tRPC API
over a SQLite store. The model covers:

- **the request context** (`server/trpc.ts`, module `Trpc`):
  - parsing the `Cookie` header into a cookie jar;
  - checking the `session` JWT and its `sessions` row;
  - invalidating a session within the expiry buffer (`SESSION_EXPIRY_BUFFER_MS`, by default 60 s);
  - loading the user;
  - the `protectedProcedure` guard.
- **the auth router** (`server/routers/auth.ts`, module `Auth`):
  - the signup input schema, with its password, age, phone, SSN, state and zip rules and its messages;
  - signup: the email conflict check, the SSN secret check, the user row with the SSN's HMAC and last four digits, and the 7-day session;
  - login, with one refusal for both an unknown email and a wrong password;
  - logout, which reads the token from a parsed cookie jar or from the raw header.
- **the account router** (`server/routers/account.ts`, module `Accounts`):
  - zero-padded 10-digit random account numbers, with a five-attempt retry loop on a uniqueness violation;
  - the per-type conflict check;
  - funding: input checks, ownership and status checks, then one deposit row and a balance update applied together;
  - transactions listed newest first, each enriched with its account's type.
- **the Luhn check** (`lib/utils/luhn.ts`, module `Luhn`).
- **the funding form's client-side validators** (`components/FundingModal.tsx`, module `FundingForm`). They are compared with what the server accepts.

Shared pieces:

- `Store` holds the four tables. Each is a `seq` of rows in a `Database` class, together with its AUTOINCREMENT counter and the table constraints (`Valid`). The constraints are:
  - the UNIQUE constraints of `lib/db/index.ts`;
  - increasing ids;
  - references to existing rows;
  - positive deposit amounts;
  - the ledger: every balance equals the sum of its account's rows.
- `Text` holds JavaScript's string operations as the code uses them: `split`, `join`, `indexOf`, `padStart`, `toString`, `slice(-n)` and ASCII case mapping.
- `Wrappers` holds `Option`, `Result` and the tRPC error codes.

Conventions:

- Money is in integer cents.
- Times are in integer milliseconds.
- Dates are (year, month, day).
- Outside inputs are parameters: bcrypt, the SSN HMAC, JWT signing and verification, `crypto.randomInt`, the clock, zod's `.email()` and environment variables.
- A JWT is a function of the user id and the second it is issued in. That is what `jwt.sign({ userId }, secret, { expiresIn })` produces.

Where the code and the documented intent or the repository's tests disagree, the model follows the code. Each disagreement below is proved as a lemma:

- logout always reports `success: true`;
- login leaves earlier sessions in place;
- the phone range is `{10,15}`;
- a state is any two characters;
- the server accepts only 16-digit cards;
- logout and the context read `session=a=b` differently;
- a signup and a login in the same second collide on the token;
- the server's `.positive()` lets through amounts below one cent, which the `.min(0.01)` bound asked for by the tickets refuses. Such an amount is stored in its row, while the balance is rounded to cents, so the balance drifts from the sum of the rows. This part is modelled in thousandths of a dollar; everywhere else money is in whole cents.

## Model

| member | source | states |
|---|---|---|
| Luhn.LuhnCheck | lib/utils/luhn.ts:3-17 | The loop answers true exactly when every character is a digit and the Luhn sum is a multiple of 10 (defined right to left, every second digit doubled with 9 subtracted above 9); a non-digit character gives false |
| Luhn.Contribution | lib/utils/luhn.ts:9-12 | A doubled digit contributes a single digit; an undoubled one contributes itself |
| Luhn.ContributionIsDigitSum | lib/utils/luhn.ts:9-12 | Subtracting 9 from a doubled digit above 9 is the digit sum of the doubled value |
| Luhn.SingleDigitErrorDetected | lib/utils/luhn.ts:3-17 | Changing any one digit of a Luhn-valid number makes it invalid |
| Luhn.KnownCardNumbers | lib/utils/luhn.ts:3-17 | The Visa test number 4111111111111111 and the Amex test number 378282246310005 pass; 4111111111111112 and "abcd1234" fail |
| Luhn.EmptyPasses | lib/utils/luhn.ts:4-16 | The empty string passes, since the loop never runs and the sum 0 is a multiple of 10 |
| Luhn.SumAtConcat | lib/utils/luhn.ts:6-15 | The right-to-left sum of a concatenation splits into the sums of its parts, the left part shifted by the right part's length |
| Text.NatToString | server/routers/account.ts:15 | `toString()` of a natural number gives digits only, without a leading zero, denoting that number |
| Text.PadStart | server/routers/account.ts:15 | `padStart(width, c)` prefixes exactly the missing number of pad characters |
| Text.LeadingZeros | server/routers/account.ts:15 | Leading zeros do not change the value of a numeral |
| Text.Split | server/trpc.ts:39 | `split(sep)` always gives at least one piece, and no piece contains the separator |
| Text.PrefixBeforeFirst | server/trpc.ts:39 | The text before the first occurrence of the separator does not contain it |
| Text.JoinSplit | server/trpc.ts:42-43 | Joining the pieces of a split on the same separator gives the string back |
| Text.ToLowerAsciiLowers | server/routers/auth.ts:26 | Lower-casing leaves no capital letter, and changes exactly the strings that contain one |
| Text.ToUpperAsciiUppers | server/routers/auth.ts:64 | Upper-casing leaves no small letter, and changes exactly the strings that contain one |
| Text.LastChars | server/routers/auth.ts:89 | `slice(-n)` is a suffix of length n, or the whole of a shorter string |
| Store.FindOwnedAccount | server/routers/account.ts:116-120 | The account lookup by id and owner finds a row with both, or there is none |
| Store.FindAccountById | server/routers/account.ts:165 | The lookup by id finds a row with that id, or there is none |
| Store.FindAccountByNumber | server/routers/account.ts:61 | The read-back by number finds a row with that number, or the number is not in the table |
| Store.FindUserByEmail | server/routers/auth.ts:69 | The email lookup finds a user with that email, or none exists |
| Store.FindUserById | server/trpc.ts:76 | The id lookup finds the user with that id, or none exists |
| Store.FindSession | server/trpc.ts:55 | The token lookup finds a session with that token, or none exists |
| Store.DeleteByToken | server/trpc.ts:68 | Deleting by token keeps exactly the sessions with other tokens; an unknown token changes nothing |
| Store.DeletePreservesSessions | lib/db/index.ts:53-59 | Deleting by token keeps the sessions table's constraints, and the token is gone afterwards |
| Store.ReadBackFindsInserted | server/routers/account.ts:52-61 | After inserting a row under a fresh number, the read-back by that number returns that row |
| Store.ReadBackFindsUser | server/routers/auth.ts:91-107 | After inserting a user under a fresh email, the read-back by email returns that user |
| Store.InsertAccountKeepsConsistent | lib/db/index.ts:32-40 | Inserting a zero-balance account under the next id and a fresh 10-digit number keeps every table constraint |
| Store.DepositKeepsConsistent | server/routers/account.ts:143-174 | A positive deposit row together with its balance credit keeps every table constraint, the ledger included |
| Store.InsertUserKeepsConsistent | lib/db/index.ts:15-30 | Inserting a user under the next id and a fresh lower-case email keeps every table constraint |
| Store.InsertSessionKeepsConsistent | lib/db/index.ts:53-59 | Inserting a session under the next id, with a fresh token and an existing user, keeps every table constraint |
| Store.CreditKeepsKeys | server/routers/account.ts:174 | A balance update keeps the accounts' ids, owners and numbers, so every ownership lookup gives the same answer |
| Store.FindAccountByIdUnique | lib/db/index.ts:33 | With increasing ids, the lookup by an account's id finds that account |
| Store.AppendRow | server/routers/account.ts:143-151 | Appending a row adds its amount and one to its account's sum and count, and nothing to other accounts |
| Store.UniformAmounts | tests/perf/perf-407.test.ts:73-106 | When every row of an account has the same amount, the account's sum is that amount times its row count |
| Store.PositiveRowsNonNegativeSum | server/routers/account.ts:92 | Rows of positive amount sum to at least their count |
| Store.Database.constructor | lib/db/index.ts:14-60 | A fresh database has four empty tables with every counter at 1, and keeps the constraints |
| Store.Database.InsertAccount | server/routers/account.ts:52-58 | Appends the row and advances the account counter, keeping the constraints |
| Store.Database.InsertUser | server/routers/auth.ts:91-104 | Appends the user and advances the user counter, keeping the constraints |
| Store.Database.InsertSession | server/routers/auth.ts:124-128 | Appends the session and advances the session counter, keeping the constraints |
| Store.Database.RecordDeposit | server/routers/account.ts:141-177 | Appends the deposit row and credits its account, so the ledger stays balanced |
| Store.Database.DeleteSession | server/trpc.ts:68 | Removes every session with the token and no other session |
| Store.BalancesNonNegative | server/routers/account.ts:92 | In a consistent store, every balance is at least its account's number of deposit rows, so it is never negative |
| Trpc.Protect | server/trpc.ts:101-112 | A request passes the guard exactly when the context has a user; it then carries that user, and otherwise fails with UNAUTHORIZED |
| Trpc.CookieEntryCutsAtFirstEquals | server/trpc.ts:41-44 | A cookie piece's key runs to its first `=`, and its value is everything after it, further `=` included |
| Trpc.NonEmpty | server/trpc.ts:40 | `filter(Boolean)` keeps exactly the non-empty pieces and no more pieces than it was given; the order is stated by `NonEmptyConcat` and `NonEmptySingle` |
| Trpc.NonEmptyConcat | server/trpc.ts:40 | Filtering a concatenation gives the two filtered halves concatenated, so kept pieces stay in their order |
| Trpc.NonEmptySingle | server/trpc.ts:40 | One piece is kept exactly when it is not empty |
| Trpc.FromEntries | server/trpc.ts:37 | The jar has exactly the keys that occur in the entries |
| Trpc.FromEntriesLastWins | server/trpc.ts:37-45 | A key's value is the one from its last entry |
| Trpc.SessionToken | server/trpc.ts:46-49 | The token is present exactly when the jar has a non-empty `session` value, and then it is that value |
| Trpc.SingleSessionCookie | server/trpc.ts:28-46 | A header holding only `session=v`, for a non-empty v with no `;`, yields the token v |
| Trpc.LastSessionCookieWins | server/trpc.ts:37-46 | With several `session` pieces, the last one decides the token |
| Trpc.Fate | server/trpc.ts:58-65 | A session row is expired when its time has passed, near expiry when the time left is within the buffer, and live otherwise; a NaN buffer is never within |
| Trpc.AdmitsExactlyLiveSessions | server/trpc.ts:49-82 | A request is admitted as user `uid` exactly when its cookie token verifies to `uid` and has a session row that is neither expired nor within the buffer |
| Trpc.UniqueToken | lib/db/index.ts:56 | Two sessions with the same token are the same row |
| Trpc.DefaultBufferInvalidatesLastMinute | server/trpc.ts:63-68 | With the variable unset, a session with 60 s or less left is invalidated instead of admitted |
| Trpc.NotANumberDisablesBuffer | server/trpc.ts:63-65 | A buffer setting that converts to NaN admits every unexpired session whose token verifies |
| Trpc.CreateContext | server/trpc.ts:24-93 | The context has a user only when the decision admits one, and it is the stored user with that id; only a near-expiry session is deleted, and nothing else changes |
| Accounts.GenerateAccountNumber | server/routers/account.ts:11-16 | The account number is 10 digits whose value is the random draw |
| Accounts.GenerateAccountNumberInjective | server/routers/account.ts:11-16 | Different draws give different account numbers |
| Accounts.Numbers | server/routers/account.ts:50 | The n-th candidate number is generated from the n-th draw |
| Accounts.Attempts | server/routers/account.ts:45-74 | The retry loop creates the account at the first attempt whose number is free, stops at an attempt hitting another store error, and is exhausted only when every number is taken |
| Accounts.TryInsert | server/routers/account.ts:51-69 | A taken number changes nothing; a free one appends the new active zero-balance row under the next id, and the read-back returns it |
| Accounts.InsertWithRetries | server/routers/account.ts:42-77 | Returns and appends the row of the first free candidate; exhaustion and any other store error are INTERNAL errors that leave the table unchanged |
| Accounts.CreateAccount | server/routers/account.ts:19-80 | UNAUTHORIZED without a user; CONFLICT "You already have a … account" when the user has one of that type; otherwise the retry loop's outcome; an error changes nothing |
| Accounts.GetAccounts | server/routers/account.ts:82-86 | The listing is exactly the accounts owned by the user in the context |
| Accounts.OwnedBy | server/routers/account.ts:83 | The rows selected by owner are exactly the accounts with that owner |
| Accounts.RoutingNumberIgnored | server/routers/account.ts:94-109 | Whether the server accepts a funding source does not depend on its routing number |
| Accounts.CheckFundingSource | server/routers/account.ts:100-109 | Accepts a card exactly when it is 16 digits and passes Luhn, and a bank account exactly when it is all digits |
| Accounts.RowsOf | server/routers/account.ts:205-208 | The rows selected by account are exactly that account's rows, as many as its count |
| Accounts.InsertNewestFirst | server/routers/account.ts:209 | Inserting into a newest-first list keeps it ordered by (createdAt, id) descending and adds exactly that row |
| Accounts.SortNewestFirst | server/routers/account.ts:209 | The sort orders by createdAt, then id, descending, and is a permutation of its input |
| Accounts.OrderedHistoryIsTheAccountsRows | server/routers/account.ts:205-209 | The history is ordered newest first and is a permutation of exactly the account's rows |
| Accounts.NewestRowIsInserted | server/routers/account.ts:156-162 | After inserting a row with the next id and a createdAt no earlier than the account's other rows, the newest row of the account is that row |
| Accounts.NewestRowBelongs | server/routers/account.ts:156-162 | The newest row belongs to the account and is at the head of its ordered history; there is none exactly when the account has no rows |
| Accounts.DepositHasHistory | server/routers/account.ts:143-162 | After a deposit, the account's newest-row lookup finds a row |
| Accounts.FundAccount | server/routers/account.ts:88-180 | UNAUTHORIZED without a user; BAD_REQUEST for a non-positive amount or a refused source; NOT_FOUND unless the caller owns the account; BAD_REQUEST "Account is not active"; INTERNAL when the store transaction fails; otherwise one deposit row is appended, only that account's balance rises by the amount, and the result reports that row and the new balance; every error changes nothing |
| Accounts.DepositCallback | server/routers/account.ts:141-177 | The store transaction appends the deposit row, credits the account, and returns the inserted row and the old balance plus the amount; when a statement fails in the store, it is rolled back and the result is an INTERNAL error with nothing changed |
| Accounts.FundingReportsItsOwnRow | server/routers/account.ts:156-176 | Within a consistent store, the reported row is the deposit just inserted, and the new balance is the sum of the account's rows |
| Accounts.FundingStep | server/routers/account.ts:141-177 | A deposit raises exactly that account's balance and row count by one step, and keeps its owner and status |
| Accounts.FundOnce | server/routers/account.ts:88-180 | A successful funding raises the balance by the amount and the row count by one, and the account stays owned and active |
| Accounts.RepeatedFunding | tests/perf/perf-407.test.ts:73-106 | n fundings of the same amount in a row raise the balance by n times the amount and add n rows |
| Accounts.FreshAccountAfterFundings | tests/perf/perf-407.test.ts:73-106 | When every row of an account has the same amount, the balance is that amount times the number of rows |
| Accounts.RoundToCents | server/routers/account.ts:172 | `Number(x.toFixed(2))` is the nearest whole cent, and a whole number of cents is kept as it is |
| Accounts.PositiveAdmitsSubCent | tests/tickets/VAL-205.test.ts:7-12 | An amount between 0.001 and 0.009 passes the server's `.positive()` but would fail the `.min(0.01)` the ticket asks for |
| Accounts.WholeCentCreditIsExact | server/routers/account.ts:172 | A whole-cent amount is credited exactly, as the cents model's `Credit` states |
| Accounts.SubCentDepositIsLost | server/routers/account.ts:146-172 | A positive amount under half a cent is stored in its row and leaves the rounded balance unchanged, so the balance is no longer the old balance plus the row |
| Accounts.SubCentFundingsNeverAdd | server/routers/account.ts:146-172 | Any number of such deposits leaves the balance where it started |
| Accounts.WholeCentFundingsAdd | server/routers/account.ts:172 | n fundings of a whole-cent amount add exactly n times that amount |
| Accounts.Enrich | server/routers/account.ts:211-221 | Each output row is the input row, in order, with the type of the account it refers to |
| Accounts.GetTransactions | server/routers/account.ts:182-222 | UNAUTHORIZED without a user and NOT_FOUND unless the caller owns the account; it succeeds exactly when the caller owns the account, with the account's history newest first, each row tagged with that account's type |
| Accounts.HistoryRowsHaveOwnersType | server/routers/account.ts:211-219 | Every row in an account's history is enriched with that account's own type |
| Auth.CommonPasswordsAreShort | server/routers/auth.ts:30-38 | The "too common" refinement never fires once the length check passes, since every listed password is shorter than 10 |
| Auth.PasswordIssue | server/routers/auth.ts:28-38 | A password is refused exactly when it is not strong: at least 10 characters with a lower-case letter, an upper-case letter, a digit and a symbol |
| Auth.AgeIsCompletedYears | server/routers/auth.ts:12-20 | The computed age is the one number of birthdays already reached by today |
| Auth.CalculateAgeFromIso | server/routers/auth.ts:12-20 | No age for an unparseable date; otherwise the number of completed years |
| Auth.AdultBirthIsPast | server/routers/auth.ts:49-56 | Whoever is at least 18 was born in the past, so the "future" refinement never decides an adult's date |
| Auth.DobIssue | server/routers/auth.ts:43-60 | A date of birth is refused exactly when it does not parse, or the age is under 18 or over 120 |
| Auth.SignupIssue | server/routers/auth.ts:25-66 | The signup input is refused exactly when some field check fails; the message is the first failing field's, in schema order |
| Auth.Normalize | server/routers/auth.ts:26-64 | Each capital letter of the email becomes its small letter and every other character stays; each small letter of the state becomes its capital and every other character stays. So a lower-case email and an upper-case state are unchanged, and no other field changes |
| Auth.ShortPhoneRejected | tests/tickets/VAL-204.test.ts:7-12 | A 7- to 9-digit phone number is refused, which the `{7,15}` format the ticket asks for would accept |
| Auth.AnyTwoCharactersAreAState | tests/tickets/VAL-203.test.ts:7-13 | Any two characters pass as a state, with no list of US states |
| Auth.SignupKeepsLastFourOfSsn | server/routers/auth.ts:88-99 | The stored `ssnLast4` of a 9-digit SSN is its last four digits |
| Auth.NewUserOwnsOnlyNewSession | server/routers/auth.ts:124-128 | Right after signup, the new user owns exactly one session, the new one |
| Auth.Signup | server/routers/auth.ts:23-138 | BAD_REQUEST with the first schema message; CONFLICT "User already exists" for a taken normalised email; INTERNAL when the SSN secret is unset; none of these writes anything. Otherwise the user row is appended, and the session under the signed token is appended with a 7-day expiry, unless that token is taken |
| Auth.Register | server/routers/auth.ts:88-137 | Appends the user row; then appends a session with a 7-day expiry under the token signed for its id, or fails on a repeated token with the user row still in place |
| Auth.CreateUser | server/routers/auth.ts:91-107 | Appends the row made from the input, under the next id, and returns it |
| Auth.OpenSession | server/routers/auth.ts:124-128 | Inserts the session exactly when the token is fresh, appending it under the next id with a 7-day expiry; otherwise nothing changes |
| Auth.Authenticate | server/routers/auth.ts:148-164 | Lets in only a stored user with exactly that email whose password hash matches |
| Auth.AuthenticateIsTheOwner | server/routers/auth.ts:148-164 | With unique emails, login lets in a user exactly when the user is stored under that email and the password matches |
| Auth.Login | server/routers/auth.ts:140-186 | BAD_REQUEST "Invalid email"; the same UNAUTHORIZED "Invalid credentials" for an unknown email and a wrong password; otherwise a new session is appended under the signed token, and earlier sessions stay; an error writes nothing |
| Auth.CapitalisedEmailFindsNobody | server/routers/auth.ts:148 | Login looks the email up as typed, so an email with a capital letter finds no user |
| Auth.LoginInSignupSecond | server/routers/auth.ts:117-128 | A login within the same second as the signup signs the same token and fails on the UNIQUE constraint |
| Auth.LoginAfterSignup | tests/integration/SEC-304.integration.test.ts:44-76 | A signup and a later login leave both sessions in the table, not the single one the test expects |
| Auth.SessionsOfNewUser | tests/integration/SEC-304.integration.test.ts:73-75 | After signup and one login, the new user owns exactly those two sessions |
| Auth.TokenOfAppend | lib/db/index.ts:56 | Appending a session adds exactly its token to the table's tokens |
| Auth.FirstSessionPiece | server/routers/auth.ts:196-198 | `find` returns a piece starting with `session=`, or no piece does |
| Auth.SessionPieceHasValue | server/routers/auth.ts:199 | A piece starting with `session=` splits into at least two parts on `=` |
| Auth.Logout | server/routers/auth.ts:188-213 | Always a success. With a user and a truthy token, exactly the sessions with that token are deleted; otherwise nothing changes. The message depends only on whether there is a user. So the two logouts of tests/integration/PERF-402.integration.test.ts:60-72, both made without a user, delete nothing and both succeed, where the test expects the second to fail |
| Auth.LoggedOutCookieIsAnonymous | server/trpc.ts:46-58 | Once the sessions under a request's token are deleted, as logout does for a caller with a user, the same cookie builds an anonymous context |
| Auth.LogoutCutsTokenAtEquals | server/routers/auth.ts:195-199 | For the header `session=a=b`, logout deletes the token `a` while the context looks up `a=b` |
| FundingForm.AmountPatternAtFirstDot | components/FundingModal.tsx:76-79 | The amount pattern's `.` is the first one in the string |
| FundingForm.FractionCents | components/FundingModal.tsx:77 | One or two fraction digits are fewer than 100 cents |
| FundingForm.AmountCentsMatchesPattern | components/FundingModal.tsx:76-79 | The cents reading exists exactly for the strings the amount pattern accepts |
| FundingForm.AmountCentsOfParts | components/FundingModal.tsx:77 | A whole part, a point and one or two digits read as 100 times the whole part plus the fraction's cents |
| FundingForm.ZeroAmountsRejected | components/FundingModal.tsx:81-86 | "0", "0.0" and "0.00" match the pattern and fail the $0.01 minimum |
| FundingForm.LeadingZerosRejected | components/FundingModal.tsx:75-79 | A string with two or more leading digits that starts with `0` never matches |
| FundingForm.FormatCentsRoundTrip | components/FundingModal.tsx:73-91 | Every whole number of cents written as dollars with two decimals reads back to itself, and is accepted between $0.01 and $10,000 |
| FundingForm.CardNumberIssue | components/FundingModal.tsx:119-127 | A card number is refused exactly when it is not 13 to 19 digits passing Luhn; the message is the first failing rule's |
| FundingForm.BankNumberIssue | components/FundingModal.tsx:119-130 | A bank account number is refused exactly when it is empty or not all digits |
| FundingForm.RoutingIssue | components/FundingModal.tsx:139-149 | A routing number is refused exactly when it is missing or not exactly 9 digits |
| FundingForm.AcceptedFormOnServer | components/FundingModal.tsx:38-58 | A form the browser lets through has a positive amount, and the server takes its source exactly when it is a bank account or a 16-digit card |
| FundingForm.ServerCardIsFormCard | server/routers/account.ts:100-102 | Every card number the server accepts, the form accepts too |
| FundingForm.FifteenDigitCardFormOnly | components/FundingModal.tsx:122-127 | The valid 15-digit Amex test number passes the form and is refused by the server |
| FundingForm.MissingRoutingServerOnly | components/FundingModal.tsx:139-149 | A bank source without a routing number is refused by the form and accepted by the server |

## Left out

- Transport and framework: the choice between the Pages and the App Router request objects (`server/trpc.ts:14-35`) is left out. `CreateContext` takes the selected `Cookie` header; logout takes either a parsed jar or the raw header.
- Setting cookies (`Set-Cookie` on signup, login and logout) is left out: it writes no state the model reads.
- `console.warn` calls are left out: the near-expiry deletion failure and the "expire soon" warning are logging only.
- The catch around the near-expiry delete (`server/trpc.ts:69-73`) is left out: the modelled delete cannot fail.
- Cryptography and randomness are parameters: bcrypt hashing and comparison, the SHA-256 HMAC of the SSN, JWT signing and verification, and `crypto.randomInt`. The model states only how their results are used.
- Other store errors during account creation are represented by the attempt index `faultAt`, and a failing statement in the funding transaction by `fault`. Their message is a stand-in, "database error", since the real text comes from the SQLite driver.
- Floating point is left out: amounts and balances are integer cents. For this reason, `parseFloat`, `toFixed(2)` rounding, and zod's `.positive()` on a float are modelled on cents. The server's positive check becomes "at least one cent". The amounts below a cent that this hides are modelled separately, in thousandths of a dollar (`Accounts.RoundToCents` and the lemmas after it); thousandths are as far as that goes, and binary rounding of a tie is not modelled.
- Accounts.FundAccount: amounts are whole cents, so the model never sees an amount below a cent. The code accepts any positive number, stores it unrounded in the row and rounds only the balance; a deposit of 0.004, say, leaves the balance unchanged (`Accounts.SubCentDepositIsLost`).
- Store.LedgerBalanced: the ledger (every balance equals the sum of its account's rows) holds in the model because amounts are whole cents. In the code it breaks as soon as an amount below a cent is deposited (`Accounts.SubCentFundingsNeverAdd`).
- Store.AccountsWellFormed: the `REFERENCES users(id)` key of `accounts.user_id` (`lib/db/index.ts:34`) is not stated. Accounts are only created for the user in the context, and users are never deleted, so nothing in the model depends on it.
- String lengths count Unicode scalar values, while JavaScript counts UTF-16 code units. This matters for the password's `.min(10)`, the state's exactly two characters and `slice(-4)` only with characters outside the Basic Multilingual Plane.
- Concurrency is left out: each procedure runs alone, and the clock is read once per call as `now`.
- Date parsing, time zones and DST are left out. `new Date(v)` becomes an optional (year, month, day); the "not in the future" comparison is by day, not by millisecond. The session's `setDate(+7)` becomes exactly seven days of milliseconds.
- Auth.SignupIssue: zod's `.email()` is the `isEmail` parameter. Case mapping covers ASCII letters only. Only the first issue's message is modelled, not the full list zod reports.
- Accounts.FundAccount: a non-positive amount together with a refused funding source gives two zod issues; only the first, the amount's, is modelled as the message.
- Auth.Login: the BAD_REQUEST carries only zod's "Invalid email" issue message, not the full issue list tRPC reports.
- FundingForm: the order in which react-hook-form reports the amount messages (required, pattern, the `minValue` validate, max) is not modelled. Only whether the amount is accepted is modelled, so there is no amount message function.
- FundingForm.FormAccepted: the routing field is checked only for a bank source, where it is mounted. The field-level `required` messages for an empty amount or card number are covered only through acceptance.
- The read-back failures are left out: they cannot happen after a successful insert in a single-connection store. These are "Failed to create user" (`server/routers/auth.ts:109-114`) and "Account not found during update" (`server/routers/account.ts:167-169`). `ReadBackFindsUser` and `FindAccountByIdUnique` prove the lookups succeed.
- Auth.Public: `password: undefined` in the response is modelled as the empty string.
- The database file, table creation and the shutdown hooks of `lib/db/index.ts` are left out: the constructor of `Store.Database` stands for a freshly created database.
- The remaining ticket tests check file contents rather than behaviour; they are not modelled.
