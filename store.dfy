/** The relational store the routers share: the `users`, `accounts`,
    `transactions` and `sessions` tables, each an insertion-ordered sequence
    of rows with an AUTOINCREMENT id counter, and the constraints the schema
    and the routers keep on them. */
module Store {
  import opened Wrappers
  import opened Text

  /** A calendar date (year, month 1-12, day 1-31). */
  datatype Date = Date(year: int, month: int, day: int)

  datatype AccountType = Checking | Savings
  datatype AccountStatus = Pending | Active | Closed

  /** A row of `accounts`; `balance` is in integer cents. */
  datatype Account = Account(
    id: nat,
    userId: nat,
    accountNumber: string,
    accountType: AccountType,
    balance: int,
    status: AccountStatus,
    createdAt: int)

  datatype TransactionType = Deposit
  datatype TransactionStatus = TransactionPending | Completed | TransactionFailed

  /** A row of `transactions`; `amount` is in integer cents, times in milliseconds. */
  datatype Transaction = Transaction(
    id: nat,
    accountId: nat,
    kind: TransactionType,
    amount: int,
    description: string,
    status: TransactionStatus,
    createdAt: int,
    processedAt: int)

  /** A row of `users`; `password` holds the bcrypt hash. */
  datatype User = User(
    id: nat,
    email: string,
    password: string,
    firstName: string,
    lastName: string,
    phoneNumber: string,
    dateOfBirth: Date,
    ssnHash: string,
    ssnLast4: string,
    address: string,
    city: string,
    state: string,
    zipCode: string)

  /** A row of `sessions`; `expiresAt` in milliseconds. */
  datatype Session = Session(id: nat, userId: nat, token: string, expiresAt: int)

  // ---- The ledger: balances against transaction rows ----

  /** The sum of the amounts of the rows of `txs` that belong to `accountId`. */
  function SumFor(txs: seq<Transaction>, accountId: nat): int
  {
    if txs == [] then 0
    else
      var last := txs[|txs| - 1];
      SumFor(txs[..|txs| - 1], accountId) + (if last.accountId == accountId then last.amount else 0)
  }

  /** How many rows of `txs` belong to `accountId`. */
  function CountFor(txs: seq<Transaction>, accountId: nat): nat
  {
    if txs == [] then 0
    else CountFor(txs[..|txs| - 1], accountId) + (if txs[|txs| - 1].accountId == accountId then 1 else 0)
  }

  lemma AppendRow(txs: seq<Transaction>, t: Transaction, accountId: nat)
    ensures SumFor(txs + [t], accountId) == SumFor(txs, accountId) + (if t.accountId == accountId then t.amount else 0)
    ensures CountFor(txs + [t], accountId) == CountFor(txs, accountId) + (if t.accountId == accountId then 1 else 0)
  {
    assert (txs + [t])[..|txs|] == txs;
  }

  /** An account no row refers to has nothing recorded. */
  lemma {:induction false} NoRowsNoSum(txs: seq<Transaction>, accountId: nat)
    requires forall k :: 0 <= k < |txs| ==> txs[k].accountId != accountId
    ensures SumFor(txs, accountId) == 0 && CountFor(txs, accountId) == 0
  {
    if txs != [] {
      NoRowsNoSum(txs[..|txs| - 1], accountId);
    }
  }

  /** When every row of an account carries the same amount `a`, the recorded
      sum is `a` times the number of rows. */
  lemma {:induction false} UniformAmounts(txs: seq<Transaction>, accountId: nat, a: int)
    requires forall k :: 0 <= k < |txs| && txs[k].accountId == accountId ==> txs[k].amount == a
    ensures SumFor(txs, accountId) == a * CountFor(txs, accountId)
  {
    if txs != [] {
      UniformAmounts(txs[..|txs| - 1], accountId, a);
    }
  }

  /** Deposits are positive, so recorded sums never go below zero. */
  lemma {:induction false} PositiveRowsNonNegativeSum(txs: seq<Transaction>, accountId: nat)
    requires forall k :: 0 <= k < |txs| ==> txs[k].amount > 0
    ensures SumFor(txs, accountId) >= 0
    ensures SumFor(txs, accountId) >= CountFor(txs, accountId)
  {
    if txs != [] {
      PositiveRowsNonNegativeSum(txs[..|txs| - 1], accountId);
    }
  }

  // ---- Table constraints ----

  /** Some row of `accounts` has the id `id`. */
  predicate HasAccount(accounts: seq<Account>, id: nat)
  {
    exists i :: 0 <= i < |accounts| && accounts[i].id == id
  }

  function AccountNumbers(accounts: seq<Account>): set<string> { set a | a in accounts :: a.accountNumber }

  function UserIds(users: seq<User>): set<nat> { set u | u in users :: u.id }

  function Emails(users: seq<User>): set<string> { set u | u in users :: u.email }

  function Tokens(sessions: seq<Session>): set<string> { set s | s in sessions :: s.token }

  /** `accounts`: ids allocated in increasing order below the counter, and the
      UNIQUE constraint on `account_number`; numbers are 10-digit strings. */
  ghost predicate AccountsWellFormed(accounts: seq<Account>, nextId: nat)
  {
    && (forall i :: 0 <= i < |accounts| ==> accounts[i].id < nextId)
    && (forall i, j :: 0 <= i < j < |accounts| ==> accounts[i].id < accounts[j].id)
    && (forall i, j :: 0 <= i < j < |accounts| ==> accounts[i].accountNumber != accounts[j].accountNumber)
    && (forall i :: 0 <= i < |accounts| ==> |accounts[i].accountNumber| == 10 && AllDigits(accounts[i].accountNumber))
  }

  /** `transactions`: increasing ids below the counter, every row refers to an
      existing account, every amount is a positive number of cents. */
  ghost predicate TransactionsWellFormed(txs: seq<Transaction>, accounts: seq<Account>, nextId: nat)
  {
    && (forall k :: 0 <= k < |txs| ==> txs[k].id < nextId)
    && (forall k, l :: 0 <= k < l < |txs| ==> txs[k].id < txs[l].id)
    && (forall k :: 0 <= k < |txs| ==> HasAccount(accounts, txs[k].accountId))
    && (forall k :: 0 <= k < |txs| ==> txs[k].amount > 0)
  }

  /** The ledger invariant: every balance is the sum of its account's rows. */
  ghost predicate LedgerBalanced(accounts: seq<Account>, txs: seq<Transaction>)
  {
    forall i :: 0 <= i < |accounts| ==> accounts[i].balance == SumFor(txs, accounts[i].id)
  }

  /** `users`: increasing ids below the counter, the UNIQUE constraint on
      `email`, and every stored email already lower-cased by signup. */
  ghost predicate UsersWellFormed(users: seq<User>, nextId: nat)
  {
    && (forall i :: 0 <= i < |users| ==> users[i].id < nextId)
    && (forall i, j :: 0 <= i < j < |users| ==> users[i].id < users[j].id)
    && (forall i, j :: 0 <= i < j < |users| ==> users[i].email != users[j].email)
    && (forall i :: 0 <= i < |users| ==> LowerCase(users[i].email))
  }

  /** `sessions`: increasing ids below the counter, the UNIQUE constraint on
      `token`, and every session belongs to an existing user. */
  ghost predicate SessionsWellFormed(sessions: seq<Session>, users: seq<User>, nextId: nat)
  {
    && (forall i :: 0 <= i < |sessions| ==> sessions[i].id < nextId)
    && (forall i, j :: 0 <= i < j < |sessions| ==> sessions[i].id < sessions[j].id)
    && (forall i, j :: 0 <= i < j < |sessions| ==> sessions[i].token != sessions[j].token)
    && (forall i :: 0 <= i < |sessions| ==> sessions[i].userId in UserIds(users))
  }

  /** Every table constraint, over the four tables and their id counters. */
  ghost predicate Consistent(users: seq<User>, accounts: seq<Account>, txs: seq<Transaction>, sessions: seq<Session>,
                             nextUser: nat, nextAccount: nat, nextTransaction: nat, nextSession: nat)
  {
    && AccountsWellFormed(accounts, nextAccount)
    && TransactionsWellFormed(txs, accounts, nextTransaction)
    && LedgerBalanced(accounts, txs)
    && UsersWellFormed(users, nextUser)
    && SessionsWellFormed(sessions, users, nextSession)
  }

  // ---- Queries ----

  /** `select ... where id = ? and user_id = ?` `.get()`: the first match. */
  function FindOwnedAccount(accounts: seq<Account>, id: nat, userId: nat): (r: Option<nat>)
    ensures r.Some? ==> r.value < |accounts| && accounts[r.value].id == id && accounts[r.value].userId == userId
    ensures r.None? ==> forall i :: 0 <= i < |accounts| ==> !(accounts[i].id == id && accounts[i].userId == userId)
  {
    if accounts == [] then None
    else if accounts[0].id == id && accounts[0].userId == userId then Some(0)
    else match FindOwnedAccount(accounts[1..], id, userId)
      case None => None
      case Some(i) => Some(i + 1)
  }

  /** `select ... where id = ?` `.get()`: the first match. */
  function FindAccountById(accounts: seq<Account>, id: nat): (r: Option<nat>)
    ensures r.Some? ==> r.value < |accounts| && accounts[r.value].id == id
    ensures r.None? ==> !HasAccount(accounts, id)
  {
    if accounts == [] then None
    else if accounts[0].id == id then Some(0)
    else match FindAccountById(accounts[1..], id)
      case None => None
      case Some(i) => Some(i + 1)
  }

  /** `select ... where user_id = ? and account_type = ?` finds a row. */
  predicate HasAccountOfType(accounts: seq<Account>, userId: nat, kind: AccountType)
  {
    exists i :: 0 <= i < |accounts| && accounts[i].userId == userId && accounts[i].accountType == kind
  }

  /** `select ... where account_number = ?` `.get()`. */
  function FindAccountByNumber(accounts: seq<Account>, number: string): (r: Option<Account>)
    ensures r.Some? ==> r.value in accounts && r.value.accountNumber == number
    ensures r.None? ==> number !in AccountNumbers(accounts)
  {
    if accounts == [] then None
    else if accounts[0].accountNumber == number then Some(accounts[0])
    else FindAccountByNumber(accounts[1..], number)
  }

  /** `select ... where email = ?` `.get()`. */
  function FindUserByEmail(users: seq<User>, email: string): (r: Option<User>)
    ensures r.Some? ==> r.value in users && r.value.email == email
    ensures r.None? ==> email !in Emails(users)
  {
    if users == [] then None
    else if users[0].email == email then Some(users[0])
    else FindUserByEmail(users[1..], email)
  }

  /** `select ... where id = ?` `.get()` on `users`. */
  function FindUserById(users: seq<User>, id: nat): (r: Option<User>)
    ensures r.Some? ==> r.value in users && r.value.id == id
    ensures r.None? ==> id !in UserIds(users)
  {
    if users == [] then None
    else if users[0].id == id then Some(users[0])
    else FindUserById(users[1..], id)
  }

  /** `select ... where token = ?` `.get()` on `sessions`. */
  function FindSession(sessions: seq<Session>, token: string): (r: Option<Session>)
    ensures r.Some? ==> r.value in sessions && r.value.token == token
    ensures r.None? ==> token !in Tokens(sessions)
  {
    if sessions == [] then None
    else if sessions[0].token == token then Some(sessions[0])
    else FindSession(sessions[1..], token)
  }

  /** `delete from sessions where token = ?`: every other row stays, in order. */
  function DeleteByToken(sessions: seq<Session>, token: string): (r: seq<Session>)
    ensures forall s :: s in r <==> s in sessions && s.token != token
    ensures |r| <= |sessions|
    ensures token !in Tokens(sessions) ==> r == sessions
  {
    if sessions == [] then []
    else if sessions[0].token == token then DeleteByToken(sessions[1..], token)
    else [sessions[0]] + DeleteByToken(sessions[1..], token)
  }

  /** Deleting sessions by token keeps the `sessions` constraints. */
  lemma {:induction false} DeletePreservesSessions(sessions: seq<Session>, users: seq<User>, nextId: nat, token: string)
    requires SessionsWellFormed(sessions, users, nextId)
    ensures SessionsWellFormed(DeleteByToken(sessions, token), users, nextId)
    ensures token !in Tokens(DeleteByToken(sessions, token))
  {
    if sessions != [] {
      var head, tail := sessions[0], sessions[1..];
      assert SessionsWellFormed(tail, users, nextId) by {
        forall i | 0 <= i < |tail| ensures tail[i] == sessions[i + 1] { }
      }
      DeletePreservesSessions(tail, users, nextId, token);
      var rest := DeleteByToken(tail, token);
      if head.token != token {
        forall x | x in rest ensures head.id < x.id && head.token != x.token {
          var j :| 0 <= j < |tail| && tail[j] == x;
          assert sessions[j + 1] == x;
        }
        ConsPreservesSessions(head, rest, users, nextId);
      }
    }
  }

  lemma ConsPreservesSessions(head: Session, rest: seq<Session>, users: seq<User>, nextId: nat)
    requires SessionsWellFormed(rest, users, nextId)
    requires head.id < nextId && head.userId in UserIds(users)
    requires forall x :: x in rest ==> head.id < x.id && head.token != x.token
    ensures SessionsWellFormed([head] + rest, users, nextId)
  {
    var r := [head] + rest;
    forall i | 0 <= i < |r| ensures r[i].id < nextId && r[i].userId in UserIds(users) {
      if i > 0 { assert r[i] == rest[i - 1]; }
    }
    forall i, j | 0 <= i < j < |r| ensures r[i].id < r[j].id && r[i].token != r[j].token {
      assert r[j] == rest[j - 1];
      if i == 0 {
        assert rest[j - 1] in rest;
      } else {
        assert r[i] == rest[i - 1];
      }
    }
  }

  // ---- Updates and the constraints they keep ----

  lemma ReadBackFindsInserted(accounts: seq<Account>, a: Account)
    requires a.accountNumber !in AccountNumbers(accounts)
    ensures FindAccountByNumber(accounts + [a], a.accountNumber) == Some(a)
  {
    if accounts != [] {
      assert accounts[0] in accounts;
      assert (accounts + [a])[1..] == accounts[1..] + [a];
      assert AccountNumbers(accounts[1..]) <= AccountNumbers(accounts) by {
        forall x | x in accounts[1..] ensures x in accounts { }
      }
      ReadBackFindsInserted(accounts[1..], a);
    }
  }

  /** Appending an account with a fresh id and a fresh 10-digit number keeps
      the `accounts` constraints. */
  lemma InsertKeepsAccounts(accounts: seq<Account>, nextAcc: nat, a: Account)
    requires AccountsWellFormed(accounts, nextAcc)
    requires a.id == nextAcc && a.accountNumber !in AccountNumbers(accounts)
    requires |a.accountNumber| == 10 && AllDigits(a.accountNumber)
    ensures AccountsWellFormed(accounts + [a], nextAcc + 1)
  {
    var accts := accounts + [a];
    forall i | 0 <= i < |accounts| ensures accts[i] == accounts[i] && accounts[i].accountNumber != a.accountNumber {
      assert accounts[i] in accounts;
    }
  }

  /** No row refers to an id that was never allocated. */
  lemma UnallocatedIdHasNoRows(accounts: seq<Account>, txs: seq<Transaction>, nextAcc: nat, nextTx: nat)
    requires AccountsWellFormed(accounts, nextAcc) && TransactionsWellFormed(txs, accounts, nextTx)
    ensures forall k :: 0 <= k < |txs| ==> txs[k].accountId < nextAcc
  {
    forall k | 0 <= k < |txs| ensures txs[k].accountId < nextAcc {
      assert HasAccount(accounts, txs[k].accountId);
      var j :| 0 <= j < |accounts| && accounts[j].id == txs[k].accountId;
    }
  }

  /** Appending an account keeps the foreign keys of `transactions`. */
  lemma InsertKeepsTransactions(accounts: seq<Account>, txs: seq<Transaction>, nextTx: nat, a: Account)
    requires TransactionsWellFormed(txs, accounts, nextTx)
    ensures TransactionsWellFormed(txs, accounts + [a], nextTx)
  {
    var accts := accounts + [a];
    forall k | 0 <= k < |txs| ensures HasAccount(accts, txs[k].accountId) {
      var j :| 0 <= j < |accounts| && accounts[j].id == txs[k].accountId;
      assert accts[j] == accounts[j];
    }
  }

  /** Appending an account with balance 0 and a fresh id keeps the ledger balanced. */
  lemma InsertKeepsLedger(accounts: seq<Account>, txs: seq<Transaction>, a: Account)
    requires LedgerBalanced(accounts, txs) && a.balance == 0
    requires forall k :: 0 <= k < |txs| ==> txs[k].accountId < a.id
    ensures LedgerBalanced(accounts + [a], txs)
  {
    NoRowsNoSum(txs, a.id);
    var accts := accounts + [a];
    forall i | 0 <= i < |accounts| ensures accts[i] == accounts[i] { }
  }

  lemma InsertAccountKeepsConsistent(users: seq<User>, accounts: seq<Account>, txs: seq<Transaction>, sessions: seq<Session>,
                                     nu: nat, na: nat, nt: nat, ns: nat, a: Account)
    requires Consistent(users, accounts, txs, sessions, nu, na, nt, ns)
    requires a.id == na && a.balance == 0 && a.accountNumber !in AccountNumbers(accounts)
    requires |a.accountNumber| == 10 && AllDigits(a.accountNumber)
    ensures Consistent(users, accounts + [a], txs, sessions, nu, na + 1, nt, ns)
  {
    InsertKeepsAccounts(accounts, na, a);
    UnallocatedIdHasNoRows(accounts, txs, na, nt);
    InsertKeepsTransactions(accounts, txs, nt, a);
    InsertKeepsLedger(accounts, txs, a);
  }

  lemma FindAccountByIdUnique(accounts: seq<Account>, nextId: nat, i: nat)
    requires AccountsWellFormed(accounts, nextId) && i < |accounts|
    ensures FindAccountById(accounts, accounts[i].id) == Some(i)
  {
    forall k | 0 <= k < |accounts| && k != i ensures accounts[k].id != accounts[i].id {
      if k < i { assert accounts[k].id < accounts[i].id; } else { assert accounts[i].id < accounts[k].id; }
    }
  }

  /** Account `i` with `amount` added to its balance. */
  function Credit(accounts: seq<Account>, i: nat, amount: int): seq<Account>
    requires i < |accounts|
  {
    accounts[i := accounts[i].(balance := accounts[i].balance + amount)]
  }

  /** Changing one balance leaves ids, owners, numbers and statuses alone. */
  lemma CreditKeepsKeys(accounts: seq<Account>, nextId: nat, i: nat, amount: int)
    requires AccountsWellFormed(accounts, nextId) && i < |accounts|
    ensures AccountsWellFormed(Credit(accounts, i, amount), nextId)
    ensures forall id :: HasAccount(accounts, id) ==> HasAccount(Credit(accounts, i, amount), id)
    ensures forall id, u :: FindOwnedAccount(Credit(accounts, i, amount), id, u) == FindOwnedAccount(accounts, id, u)
  {
    var a2 := Credit(accounts, i, amount);
    forall id | HasAccount(accounts, id) ensures HasAccount(a2, id) {
      var j :| 0 <= j < |accounts| && accounts[j].id == id;
      assert a2[j].id == id;
    }
    forall id, u ensures FindOwnedAccount(a2, id, u) == FindOwnedAccount(accounts, id, u) {
      FindOwnedSameKeys(accounts, a2, id, u);
    }
  }

  lemma {:induction false} FindOwnedSameKeys(a: seq<Account>, b: seq<Account>, id: nat, u: nat)
    requires |a| == |b|
    requires forall j :: 0 <= j < |a| ==> a[j].id == b[j].id && a[j].userId == b[j].userId
    ensures FindOwnedAccount(a, id, u) == FindOwnedAccount(b, id, u)
  {
    if a != [] {
      FindOwnedSameKeys(a[1..], b[1..], id, u);
    }
  }

  /** A deposit row for account `i` keeps the `transactions` constraints. */
  lemma DepositKeepsTransactions(accounts: seq<Account>, txs: seq<Transaction>, nextAcc: nat, nextTx: nat, i: nat, t: Transaction)
    requires AccountsWellFormed(accounts, nextAcc) && TransactionsWellFormed(txs, accounts, nextTx) && i < |accounts|
    requires t.id == nextTx && t.accountId == accounts[i].id && t.amount > 0
    ensures TransactionsWellFormed(txs + [t], Credit(accounts, i, t.amount), nextTx + 1)
  {
    CreditKeepsKeys(accounts, nextAcc, i, t.amount);
    var txs2 := txs + [t];
    forall k | 0 <= k < |txs2| ensures HasAccount(accounts, txs2[k].accountId) {
      if k < |txs| { assert txs2[k] == txs[k]; }
    }
  }

  /** Crediting account `i` with a deposit row's amount keeps the ledger balanced. */
  lemma DepositKeepsLedger(accounts: seq<Account>, txs: seq<Transaction>, nextAcc: nat, i: nat, t: Transaction)
    requires AccountsWellFormed(accounts, nextAcc) && LedgerBalanced(accounts, txs) && i < |accounts|
    requires t.accountId == accounts[i].id
    ensures LedgerBalanced(Credit(accounts, i, t.amount), txs + [t])
  {
    var a2 := Credit(accounts, i, t.amount);
    forall j | 0 <= j < |a2| ensures a2[j].balance == SumFor(txs + [t], a2[j].id) {
      AppendRow(txs, t, a2[j].id);
      if j < i { assert accounts[j].id < accounts[i].id; }
      if i < j { assert accounts[i].id < accounts[j].id; }
    }
  }

  /** A deposit row inserted for account `i`, with the balance credited,
      keeps every table constraint. */
  lemma DepositKeepsConsistent(users: seq<User>, accounts: seq<Account>, txs: seq<Transaction>, sessions: seq<Session>,
                               nu: nat, na: nat, nt: nat, ns: nat, i: nat, t: Transaction)
    requires Consistent(users, accounts, txs, sessions, nu, na, nt, ns) && i < |accounts|
    requires t.id == nt && t.accountId == accounts[i].id && t.amount > 0
    ensures Consistent(users, Credit(accounts, i, t.amount), txs + [t], sessions, nu, na, nt + 1, ns)
  {
    CreditKeepsKeys(accounts, na, i, t.amount);
    DepositKeepsTransactions(accounts, txs, na, nt, i, t);
    DepositKeepsLedger(accounts, txs, na, i, t);
  }

  /** Reading a user back by the email it was inserted under finds it. */
  lemma ReadBackFindsUser(users: seq<User>, u: User)
    requires u.email !in Emails(users)
    ensures FindUserByEmail(users + [u], u.email) == Some(u)
  {
    if users != [] {
      assert users[0] in users;
      assert (users + [u])[1..] == users[1..] + [u];
      assert Emails(users[1..]) <= Emails(users) by {
        forall x | x in users[1..] ensures x in users { }
      }
      ReadBackFindsUser(users[1..], u);
    }
  }

  /** Appending a user with the next id and a new, lower-case email keeps every
      table constraint; sessions may only gain owners. */
  lemma InsertUserKeepsConsistent(users: seq<User>, accounts: seq<Account>, txs: seq<Transaction>, sessions: seq<Session>,
                                  nu: nat, na: nat, nt: nat, ns: nat, u: User)
    requires Consistent(users, accounts, txs, sessions, nu, na, nt, ns)
    requires u.id == nu && u.email !in Emails(users) && LowerCase(u.email)
    ensures Consistent(users + [u], accounts, txs, sessions, nu + 1, na, nt, ns)
  {
    var us := users + [u];
    forall i | 0 <= i < |users| ensures us[i] == users[i] && users[i].email != u.email {
      assert users[i] in users;
    }
    assert UserIds(users) <= UserIds(us);
  }

  /** Appending a session with the next id, a new token and an existing owner
      keeps every table constraint. */
  lemma InsertSessionKeepsConsistent(users: seq<User>, accounts: seq<Account>, txs: seq<Transaction>, sessions: seq<Session>,
                                     nu: nat, na: nat, nt: nat, ns: nat, s: Session)
    requires Consistent(users, accounts, txs, sessions, nu, na, nt, ns)
    requires s.id == ns && s.token !in Tokens(sessions) && s.userId in UserIds(users)
    ensures Consistent(users, accounts, txs, sessions + [s], nu, na, nt, ns + 1)
  {
    var ss := sessions + [s];
    forall i | 0 <= i < |sessions| ensures ss[i] == sessions[i] && sessions[i].token != s.token {
      assert sessions[i] in sessions;
    }
  }

  /** The whole database. */
  class Database {
    var users: seq<User>
    var accounts: seq<Account>
    var transactions: seq<Transaction>
    var sessions: seq<Session>
    var nextUserId: nat
    var nextAccountId: nat
    var nextTransactionId: nat
    var nextSessionId: nat

    ghost predicate Valid()
      reads this
    {
      Consistent(users, accounts, transactions, sessions, nextUserId, nextAccountId, nextTransactionId, nextSessionId)
    }

    /** A freshly bootstrapped, empty database. */
    constructor ()
      ensures Valid()
      ensures users == [] && accounts == [] && transactions == [] && sessions == []
      ensures nextUserId == 1 && nextAccountId == 1 && nextTransactionId == 1 && nextSessionId == 1
    {
      users, accounts, transactions, sessions := [], [], [], [];
      nextUserId, nextAccountId, nextTransactionId, nextSessionId := 1, 1, 1, 1;
    }

    /** `insert into accounts` of the row `a`, which carries the next id, a
        zero balance and a 10-digit number not yet in the table. */
    method InsertAccount(a: Account)
      requires Valid()
      requires a.id == nextAccountId && a.balance == 0 && a.accountNumber !in AccountNumbers(accounts)
      requires |a.accountNumber| == 10 && AllDigits(a.accountNumber)
      modifies `accounts, `nextAccountId
      ensures Valid()
      ensures accounts == old(accounts) + [a] && nextAccountId == old(nextAccountId) + 1
    {
      InsertAccountKeepsConsistent(users, accounts, transactions, sessions,
                                   nextUserId, nextAccountId, nextTransactionId, nextSessionId, a);
      accounts, nextAccountId := accounts + [a], nextAccountId + 1;
    }

    /** `insert into users` of the row `u`, which carries the next id and a
        lower-case email not yet in the table. */
    method InsertUser(u: User)
      requires Valid()
      requires u.id == nextUserId && u.email !in Emails(users) && LowerCase(u.email)
      modifies `users, `nextUserId
      ensures Valid()
      ensures users == old(users) + [u] && nextUserId == old(nextUserId) + 1
    {
      InsertUserKeepsConsistent(users, accounts, transactions, sessions,
                                nextUserId, nextAccountId, nextTransactionId, nextSessionId, u);
      users, nextUserId := users + [u], nextUserId + 1;
    }

    /** `insert into sessions` of the row `s`, which carries the next id, a
        token not yet in the table and an existing owner. */
    method InsertSession(s: Session)
      requires Valid()
      requires s.id == nextSessionId && s.token !in Tokens(sessions) && s.userId in UserIds(users)
      modifies `sessions, `nextSessionId
      ensures Valid()
      ensures sessions == old(sessions) + [s] && nextSessionId == old(nextSessionId) + 1
    {
      InsertSessionKeepsConsistent(users, accounts, transactions, sessions,
                                   nextUserId, nextAccountId, nextTransactionId, nextSessionId, s);
      sessions, nextSessionId := sessions + [s], nextSessionId + 1;
    }

    /** The two writes of a deposit, applied together as one store
        transaction: the row `t`, which carries the next id, is inserted and
        account `i` is credited with its amount. */
    method RecordDeposit(i: nat, t: Transaction)
      requires Valid() && i < |accounts|
      requires t.id == nextTransactionId && t.accountId == accounts[i].id && t.amount > 0
      modifies `accounts, `transactions, `nextTransactionId
      ensures Valid()
      ensures transactions == old(transactions) + [t] && nextTransactionId == old(nextTransactionId) + 1
      ensures accounts == Credit(old(accounts), i, t.amount)
    {
      DepositKeepsConsistent(users, accounts, transactions, sessions,
                             nextUserId, nextAccountId, nextTransactionId, nextSessionId, i, t);
      transactions, nextTransactionId, accounts := transactions + [t], nextTransactionId + 1, Credit(accounts, i, t.amount);
    }

    /** `delete from sessions where token = ?`: every row with that token goes,
        every other row stays. */
    method DeleteSession(token: string)
      requires Valid()
      modifies `sessions
      ensures Valid()
      ensures sessions == DeleteByToken(old(sessions), token)
      ensures token !in Tokens(sessions)
    {
      DeletePreservesSessions(sessions, users, nextSessionId, token);
      sessions := DeleteByToken(sessions, token);
    }
  }

  /** Every balance is non-negative, and at least one cent per deposit row. */
  lemma BalancesNonNegative(db: Database, i: nat)
    requires db.Valid() && i < |db.accounts|
    ensures db.accounts[i].balance >= CountFor(db.transactions, db.accounts[i].id) >= 0
  {
    PositiveRowsNonNegativeSum(db.transactions, db.accounts[i].id);
  }
}
