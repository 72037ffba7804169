/** The account router: opening an account under a fresh random 10-digit
    number with a bounded retry loop, funding an account (one deposit row and
    a balance update, atomically), and listing an account's transactions
    newest first. Money is in integer cents and times in milliseconds. */
module Accounts {
  import opened Wrappers
  import opened Text
  import opened Luhn
  import opened Store
  import opened Trpc

  // ---- Account numbers ----

  /** `crypto.randomInt(0, 10_000_000_000)` draws below this bound. */
  const AccountNumberSpace: nat := 10_000_000_000
  const AccountNumberLength: nat := 10
  /** `maxAttempts` of the retry loop. */
  const MaxAttempts: nat := 5

  /** `generateAccountNumber()` for the random draw `draw`: its decimal
      numeral left-padded with zeros to 10 characters. */
  function GenerateAccountNumber(draw: nat): (r: string)
    requires draw < AccountNumberSpace
    ensures |r| == AccountNumberLength && AllDigits(r)
    ensures NumeralValue(r) == draw
  {
    var digits := NatToString(draw);
    assert Pow10(10) == AccountNumberSpace;
    NatToStringLength(draw, 10);
    LeadingZeros(AccountNumberLength - |digits|, digits);
    PadStart(digits, AccountNumberLength, '0')
  }

  /** Distinct draws give distinct account numbers. */
  lemma GenerateAccountNumberInjective(a: nat, b: nat)
    requires a < AccountNumberSpace && b < AccountNumberSpace && a != b
    ensures GenerateAccountNumber(a) != GenerateAccountNumber(b)
  {
    var x, y := GenerateAccountNumber(a), GenerateAccountNumber(b);
    assert NumeralValue(x) != NumeralValue(y);
  }

  function AccountTypeName(t: AccountType): string
  {
    match t
    case Checking => "checking"
    case Savings => "savings"
  }

  function ConflictMessage(t: AccountType): string
  {
    "You already have a " + AccountTypeName(t) + " account"
  }

  const ExhaustedMessage: string := "Failed to create account after multiple attempts"
  /** The message of a store error other than a uniqueness violation, rethrown. */
  const StoreFailureMessage: string := "database error"

  /** The account numbers generated from the successive random draws. */
  function Numbers(draws: seq<nat>): (r: seq<string>)
    requires forall j :: 0 <= j < |draws| ==> draws[j] < AccountNumberSpace
    ensures |r| == |draws|
    ensures forall j :: 0 <= j < |r| ==> r[j] == GenerateAccountNumber(draws[j])
  {
    if draws == [] then [] else [GenerateAccountNumber(draws[0])] + Numbers(draws[1..])
  }

  /** How the retry loop ends, from the attempt with 0-based index `k` on:
      `taken` are the account numbers already in the table, `numbers` the
      successively generated candidates, `faultAt` the attempt (if any) whose
      insert fails with an error that is not a uniqueness violation. */
  datatype AttemptsOutcome = Created(index: nat) | Exhausted | Broke(index: nat)

  function Attempts(taken: set<string>, numbers: seq<string>, faultAt: Option<nat>, k: nat): (o: AttemptsOutcome)
    requires k <= |numbers|
    ensures o.Created? ==>
      && k <= o.index < |numbers| && faultAt != Some(o.index) && numbers[o.index] !in taken
      && (forall j :: k <= j < o.index ==> numbers[j] in taken && faultAt != Some(j))
    ensures o.Broke? ==>
      && k <= o.index < |numbers| && faultAt == Some(o.index)
      && (forall j :: k <= j < o.index ==> numbers[j] in taken)
    ensures o.Exhausted? ==>
      forall j :: k <= j < |numbers| ==> numbers[j] in taken && faultAt != Some(j)
    decreases |numbers| - k
  {
    if k == |numbers| then Exhausted
    else if faultAt == Some(k) then Broke(k)
    else if numbers[k] !in taken then Created(k)
    else Attempts(taken, numbers, faultAt, k + 1)
  }

  /** The row `createAccount` inserts. */
  function NewAccount(id: nat, userId: nat, number: string, kind: AccountType, now: int): Account
  {
    Account(id, userId, number, kind, 0, Active, now)
  }

  /** One attempt of the retry loop: insert a row under `number` unless the
      number is taken, and read it back by number. */
  method TryInsert(db: Database, userId: nat, accountType: AccountType, number: string, now: int)
    returns (created: Option<Account>)
    requires db.Valid() && |number| == AccountNumberLength && AllDigits(number)
    modifies db`accounts, db`nextAccountId
    ensures db.Valid()
    ensures number in AccountNumbers(old(db.accounts)) ==>
      created.None? && db.accounts == old(db.accounts) && db.nextAccountId == old(db.nextAccountId)
    ensures number !in AccountNumbers(old(db.accounts)) ==>
      && created == Some(NewAccount(old(db.nextAccountId), userId, number, accountType, now))
      && db.accounts == old(db.accounts) + [created.value]
      && db.nextAccountId == old(db.nextAccountId) + 1
  {
    created := None;
    if number !in AccountNumbers(db.accounts) {
      var row := NewAccount(db.nextAccountId, userId, number, accountType, now);
      ReadBackFindsInserted(db.accounts, row);
      db.InsertAccount(row);
      created := FindAccountByNumber(db.accounts, number);
    }
  }

  /** The `db.transaction` callback of `createAccount`: up to five attempts,
      each inserting a row under a freshly drawn number and reading it back;
      a uniqueness violation moves on to the next attempt, any other store
      error aborts, and running out of attempts is an INTERNAL error. The
      store is left unchanged by every error. */
  method InsertWithRetries(db: Database, userId: nat, accountType: AccountType, candidates: seq<nat>,
                           faultAt: Option<nat>, now: int) returns (r: Result<Account>)
    requires db.Valid()
    requires |candidates| == MaxAttempts
    requires forall j :: 0 <= j < |candidates| ==> candidates[j] < AccountNumberSpace
    modifies db`accounts, db`nextAccountId
    ensures db.Valid()
    ensures match Attempts(AccountNumbers(old(db.accounts)), Numbers(candidates), faultAt, 0)
      case Created(k) =>
        && r == Ok(NewAccount(old(db.nextAccountId), userId, Numbers(candidates)[k], accountType, now))
        && db.accounts == old(db.accounts) + [r.value]
        && db.nextAccountId == old(db.nextAccountId) + 1
      case Exhausted => r == Err(ApiError(InternalServerError, ExhaustedMessage))
      case Broke(_) => r == Err(ApiError(InternalServerError, StoreFailureMessage))
    ensures r.Err? ==> db.accounts == old(db.accounts) && db.nextAccountId == old(db.nextAccountId)
  {
    ghost var taken := AccountNumbers(db.accounts);
    ghost var numbers := Numbers(candidates);
    r := Err(ApiError(InternalServerError, ExhaustedMessage));
    var done := false;
    var attempt := 0;
    while !done && attempt < MaxAttempts
      invariant 0 <= attempt <= MaxAttempts
      invariant db.Valid()
      invariant !done ==>
        && r == Err(ApiError(InternalServerError, ExhaustedMessage))
        && db.accounts == old(db.accounts) && db.nextAccountId == old(db.nextAccountId)
        && Attempts(taken, numbers, faultAt, 0) == Attempts(taken, numbers, faultAt, attempt)
      invariant done ==> match Attempts(taken, numbers, faultAt, 0)
        case Created(k) =>
          && r == Ok(NewAccount(old(db.nextAccountId), userId, numbers[k], accountType, now))
          && db.accounts == old(db.accounts) + [r.value]
          && db.nextAccountId == old(db.nextAccountId) + 1
        case Exhausted => false
        case Broke(_) =>
          && r == Err(ApiError(InternalServerError, StoreFailureMessage))
          && db.accounts == old(db.accounts) && db.nextAccountId == old(db.nextAccountId)
    {
      var number := GenerateAccountNumber(candidates[attempt]);
      assert number == numbers[attempt];
      if faultAt == Some(attempt) {
        assert Attempts(taken, numbers, faultAt, attempt) == Broke(attempt);
        r := Err(ApiError(InternalServerError, StoreFailureMessage));
        done := true;
      } else {
        var created := TryInsert(db, userId, accountType, number, now);
        if created.Some? {
          assert Attempts(taken, numbers, faultAt, attempt) == Created(attempt);
          r := Ok(created.value);
          done := true;
        }
      }
      attempt := attempt + 1;
    }
    assert !done ==> Attempts(taken, numbers, faultAt, attempt) == Exhausted;
  }

  /** `createAccount({ accountType })`: the guard, the CONFLICT check on an
      existing account of the same type, then the insert with retries.
      `candidates` are the five draws of `crypto.randomInt`. */
  method CreateAccount(db: Database, ctx: Context, accountType: AccountType, candidates: seq<nat>,
                       faultAt: Option<nat>, now: int) returns (r: Result<Account>)
    requires db.Valid()
    requires |candidates| == MaxAttempts
    requires forall j :: 0 <= j < |candidates| ==> candidates[j] < AccountNumberSpace
    modifies db`accounts, db`nextAccountId
    ensures db.Valid()
    ensures ctx.user.None? ==> r == Err(ApiError(Unauthorized, "UNAUTHORIZED"))
    ensures ctx.user.Some? && HasAccountOfType(old(db.accounts), ctx.user.value.id, accountType) ==>
      r == Err(ApiError(Conflict, ConflictMessage(accountType)))
    ensures ctx.user.Some? && !HasAccountOfType(old(db.accounts), ctx.user.value.id, accountType) ==>
      match Attempts(AccountNumbers(old(db.accounts)), Numbers(candidates), faultAt, 0)
      case Created(k) =>
        && r == Ok(NewAccount(old(db.nextAccountId), ctx.user.value.id, Numbers(candidates)[k], accountType, now))
        && db.accounts == old(db.accounts) + [r.value]
        && db.nextAccountId == old(db.nextAccountId) + 1
      case Exhausted => r == Err(ApiError(InternalServerError, ExhaustedMessage))
      case Broke(_) => r == Err(ApiError(InternalServerError, StoreFailureMessage))
    ensures r.Err? ==> db.accounts == old(db.accounts) && db.nextAccountId == old(db.nextAccountId)
  {
    var auth := Protect(ctx);
    if auth.Err? {
      return Err(auth.error);
    }
    if HasAccountOfType(db.accounts, auth.value.id, accountType) {
      return Err(ApiError(Conflict, ConflictMessage(accountType)));
    }
    r := InsertWithRetries(db, auth.value.id, accountType, candidates, faultAt, now);
  }

  /** `getAccounts`: the caller's accounts, in table order. */
  function GetAccounts(accounts: seq<Account>, ctx: Context): (r: Result<seq<Account>>)
    ensures r.Err? <==> ctx.user.None?
    ensures r.Ok? ==> forall a :: a in r.value <==> a in accounts && a.userId == ctx.user.value.id
  {
    match Protect(ctx)
    case Err(e) => Err(e)
    case Ok(user) => Ok(OwnedBy(accounts, user.id))
  }

  function OwnedBy(accounts: seq<Account>, userId: nat): (r: seq<Account>)
    ensures forall a :: a in r <==> a in accounts && a.userId == userId
  {
    if accounts == [] then []
    else (if accounts[0].userId == userId then [accounts[0]] else []) + OwnedBy(accounts[1..], userId)
  }

  // ---- Funding ----

  datatype FundingType = Card | Bank

  /** The `fundingSource` input object. */
  datatype FundingSource = FundingSource(kind: FundingType, accountNumber: string, routingNumber: Option<string>)

  function FundingTypeName(t: FundingType): string
  {
    match t
    case Card => "card"
    case Bank => "bank"
  }

  const InvalidSourceMessage: string := "Invalid card/account number (must be 16 digits and pass Luhn for cards)"
  const NonPositiveAmountMessage: string := "Number must be greater than 0"

  /** The `refine` on `fundingSource`: a card needs `/^\d{16}$/` and the
      Luhn check, a bank account `/^\d+$/`. */
  predicate FundingSourceAccepted(src: FundingSource)
  {
    match src.kind
    case Card => |src.accountNumber| == 16 && AllDigits(src.accountNumber) && LuhnValid(src.accountNumber)
    case Bank => |src.accountNumber| >= 1 && AllDigits(src.accountNumber)
  }

  /** The refinement never looks at the routing number. */
  lemma RoutingNumberIgnored(src: FundingSource, routing: Option<string>)
    ensures FundingSourceAccepted(src) <==> FundingSourceAccepted(src.(routingNumber := routing))
  {
  }

  /** The refinement as the handler's input validation runs it, calling the
      Luhn loop for cards. */
  method CheckFundingSource(src: FundingSource) returns (ok: bool)
    ensures ok <==> FundingSourceAccepted(src)
  {
    match src.kind
    case Card =>
      if |src.accountNumber| != 16 || !AllDigits(src.accountNumber) {
        return false;
      }
      ok := LuhnCheck(src.accountNumber);
    case Bank =>
      ok := |src.accountNumber| >= 1 && AllDigits(src.accountNumber);
  }

  /** What the procedure returns on success. */
  datatype FundResult = FundResult(transaction: Transaction, newBalance: int)

  /** The deposit row `fundAccount` inserts. */
  function DepositRow(id: nat, accountId: nat, amount: int, kind: FundingType, now: int): Transaction
  {
    Transaction(id, accountId, Deposit, amount, "Funding from " + FundingTypeName(kind), Completed, now, now)
  }

  /** Listing order: `a` comes no later than `b` under
      `orderBy(desc(createdAt), desc(id))`. */
  predicate NewerOrSame(a: Transaction, b: Transaction)
  {
    a.createdAt > b.createdAt || (a.createdAt == b.createdAt && a.id >= b.id)
  }

  predicate NewestFirst(s: seq<Transaction>)
  {
    forall i, j :: 0 <= i < j < |s| ==> NewerOrSame(s[i], s[j])
  }

  /** The rows of one account, in table order (`where account_id = ?`). */
  function RowsOf(txs: seq<Transaction>, accountId: nat): (r: seq<Transaction>)
    ensures forall t :: t in r <==> t in txs && t.accountId == accountId
    ensures |r| == CountFor(txs, accountId)
  {
    if txs == [] then []
    else
      var last := txs[|txs| - 1];
      RowsOf(txs[..|txs| - 1], accountId) + (if last.accountId == accountId then [last] else [])
  }

  /** A row no older than every row of a newest-first list can head it. */
  lemma ConsNewestFirst(x: Transaction, s: seq<Transaction>)
    requires NewestFirst(s)
    requires forall y :: y in s ==> NewerOrSame(x, y)
    ensures NewestFirst([x] + s)
  {
    var r := [x] + s;
    forall i, j | 0 <= i < j < |r| ensures NewerOrSame(r[i], r[j]) {
      assert r[j] == s[j - 1];
      if i == 0 {
        assert s[j - 1] in s;
      } else {
        assert r[i] == s[i - 1];
      }
    }
  }

  /** Put `t` into a newest-first list. */
  function InsertNewestFirst(t: Transaction, s: seq<Transaction>): (r: seq<Transaction>)
    requires NewestFirst(s)
    ensures NewestFirst(r)
    ensures multiset(r) == multiset(s) + multiset{t}
  {
    if s == [] then [t]
    else if NewerOrSame(t, s[0]) then
      HeadNewest(t, s);
      ConsNewestFirst(t, s);
      [t] + s
    else
      var rest := InsertNewestFirst(t, s[1..]);
      assert s == [s[0]] + s[1..];
      HeadOver(s, t, rest);
      ConsNewestFirst(s[0], rest);
      [s[0]] + rest
  }

  /** What is no older than the head of a newest-first list is no older than any row of it. */
  lemma HeadNewest(t: Transaction, s: seq<Transaction>)
    requires NewestFirst(s) && s != [] && NewerOrSame(t, s[0])
    ensures forall y :: y in s ==> NewerOrSame(t, y)
  {
    forall y | y in s ensures NewerOrSame(t, y) {
      var j :| 0 <= j < |s| && s[j] == y;
      if j > 0 { assert NewerOrSame(s[0], s[j]); }
    }
  }

  lemma HeadOver(s: seq<Transaction>, t: Transaction, rest: seq<Transaction>)
    requires NewestFirst(s) && s != [] && !NewerOrSame(t, s[0])
    requires multiset(rest) == multiset(s[1..]) + multiset{t}
    ensures forall y :: y in rest ==> NewerOrSame(s[0], y)
  {
    forall y | y in rest ensures NewerOrSame(s[0], y) {
      assert y in multiset(rest);
      if y != t {
        assert y in multiset(s[1..]);
        var j :| 0 <= j < |s[1..]| && s[1..][j] == y;
        assert s[j + 1] == y;
      }
    }
  }

  /** Sort newest first (an insertion sort). */
  function SortNewestFirst(s: seq<Transaction>): (r: seq<Transaction>)
    ensures NewestFirst(r)
    ensures multiset(r) == multiset(s)
  {
    if s == [] then []
    else
      assert s == [s[0]] + s[1..];
      InsertNewestFirst(s[0], SortNewestFirst(s[1..]))
  }

  /** The rows of `select ... where account_id = ? orderBy(desc createdAt, desc id)`. */
  function OrderedHistory(txs: seq<Transaction>, accountId: nat): seq<Transaction>
  {
    SortNewestFirst(RowsOf(txs, accountId))
  }

  /** The history holds exactly the account's rows, each as often as in the
      table, newest first. */
  lemma OrderedHistoryIsTheAccountsRows(txs: seq<Transaction>, accountId: nat)
    ensures NewestFirst(OrderedHistory(txs, accountId))
    ensures multiset(OrderedHistory(txs, accountId)) == multiset(RowsOf(txs, accountId))
    ensures forall t :: t in OrderedHistory(txs, accountId) <==> t in txs && t.accountId == accountId
    ensures |OrderedHistory(txs, accountId)| == CountFor(txs, accountId)
  {
    var h := OrderedHistory(txs, accountId);
    forall t ensures t in h <==> t in RowsOf(txs, accountId) {
      assert t in h <==> t in multiset(h);
    }
    assert |h| == |multiset(h)|;
  }

  /** The row `fundAccount` reports back (`limit(1)`): the head of the ordered history. */
  function NewestRow(txs: seq<Transaction>, accountId: nat): Option<Transaction>
  {
    var h := OrderedHistory(txs, accountId);
    if h == [] then None else Some(h[0])
  }

  /** The reported row is the inserted one when no earlier row of the account
      carries a later timestamp; the inserted row has the largest id. */
  lemma NewestRowIsInserted(txs: seq<Transaction>, accounts: seq<Account>, nextId: nat, t: Transaction)
    requires TransactionsWellFormed(txs, accounts, nextId)
    requires t.id == nextId
    requires forall k :: 0 <= k < |txs| && txs[k].accountId == t.accountId ==> txs[k].createdAt <= t.createdAt
    ensures NewestRow(txs + [t], t.accountId) == Some(t)
  {
    var all := txs + [t];
    OrderedHistoryIsTheAccountsRows(all, t.accountId);
    var h := OrderedHistory(all, t.accountId);
    assert t in all;
    var j :| 0 <= j < |h| && h[j] == t;
    var hd := h[0];
    assert hd in h;
    assert NewerOrSame(hd, t) by {
      if j > 0 { assert NewerOrSame(h[0], h[j]); }
    }
    forall x | x in all && x.accountId == t.accountId ensures NewerOrSame(t, x) && (x.id < t.id || x == t) {
      var k :| 0 <= k < |all| && all[k] == x;
      if k < |txs| { assert txs[k] == x; }
    }
  }

  /** `NewestRow` only ever reports a row of the asked account. */
  lemma NewestRowBelongs(txs: seq<Transaction>, accountId: nat)
    ensures NewestRow(txs, accountId).Some? ==>
      NewestRow(txs, accountId).value in txs && NewestRow(txs, accountId).value.accountId == accountId
    ensures NewestRow(txs, accountId).None? <==> CountFor(txs, accountId) == 0
  {
    OrderedHistoryIsTheAccountsRows(txs, accountId);
    var h := OrderedHistory(txs, accountId);
    if h != [] {
      assert h[0] in h;
    }
  }

  /** After a deposit row is inserted the account's history is not empty. */
  lemma DepositHasHistory(txs: seq<Transaction>, t: Transaction)
    ensures NewestRow(txs + [t], t.accountId).Some?
  {
    AppendRow(txs, t, t.accountId);
    NewestRowBelongs(txs + [t], t.accountId);
  }

  /** `fundAccount({ accountId, amount, fundingSource })`: the guard, the input
      checks (`amount` positive, the source refinement), ownership and status,
      then the deposit and the balance update in one store transaction.
      `fault` says whether a statement of that transaction fails in the store;
      the transaction is then rolled back. */
  method FundAccount(db: Database, ctx: Context, accountId: nat, amount: int, source: FundingSource, now: int,
                     fault: bool)
    returns (r: Result<FundResult>)
    requires db.Valid()
    modifies db`accounts, db`transactions, db`nextTransactionId
    ensures db.Valid()
    ensures ctx.user.None? ==> r == Err(ApiError(Unauthorized, "UNAUTHORIZED"))
    ensures ctx.user.Some? && amount <= 0 ==> r == Err(ApiError(BadRequest, NonPositiveAmountMessage))
    ensures ctx.user.Some? && amount > 0 && !FundingSourceAccepted(source) ==>
      r == Err(ApiError(BadRequest, InvalidSourceMessage))
    ensures ctx.user.Some? && amount > 0 && FundingSourceAccepted(source) ==>
      match FindOwnedAccount(old(db.accounts), accountId, ctx.user.value.id)
      case None => r == Err(ApiError(NotFound, "Account not found"))
      case Some(i) =>
        if old(db.accounts)[i].status != Active then r == Err(ApiError(BadRequest, "Account is not active"))
        else if fault then r == Err(ApiError(InternalServerError, StoreFailureMessage))
        else
          var t := DepositRow(old(db.nextTransactionId), accountId, amount, source.kind, now);
          && db.transactions == old(db.transactions) + [t]
          && db.nextTransactionId == old(db.nextTransactionId) + 1
          && db.accounts == Credit(old(db.accounts), i, amount)
          && r.Ok? && r.value.newBalance == old(db.accounts)[i].balance + amount
          && NewestRow(db.transactions, accountId) == Some(r.value.transaction)
    ensures r.Err? ==>
      db.accounts == old(db.accounts) && db.transactions == old(db.transactions)
      && db.nextTransactionId == old(db.nextTransactionId)
  {
    var auth := Protect(ctx);
    if auth.Err? {
      return Err(auth.error);
    }
    var user := auth.value;
    if amount <= 0 {
      return Err(ApiError(BadRequest, NonPositiveAmountMessage));
    }
    var sourceOk := CheckFundingSource(source);
    if !sourceOk {
      return Err(ApiError(BadRequest, InvalidSourceMessage));
    }
    var owned := FindOwnedAccount(db.accounts, accountId, user.id);
    if owned.None? {
      return Err(ApiError(NotFound, "Account not found"));
    }
    var i := owned.value;
    if db.accounts[i].status != Active {
      return Err(ApiError(BadRequest, "Account is not active"));
    }
    r := DepositCallback(db, i, amount, source.kind, now, fault);
  }

  /** The `db.transaction` callback of `fundAccount`: insert the deposit row,
      read back the newest row of the account, re-read the account, and set
      its balance to the re-read balance plus `amount`. The account is read
      before the two writes and the row after them; neither write touches the
      table the other read looks at, so the values read are the same. When a
      statement fails in the store (`fault`), the transaction is rolled back
      and the error reaches the client as an internal error. */
  method DepositCallback(db: Database, i: nat, amount: int, kind: FundingType, now: int, fault: bool)
    returns (r: Result<FundResult>)
    requires db.Valid() && i < |db.accounts| && amount > 0
    modifies db`accounts, db`transactions, db`nextTransactionId
    ensures db.Valid()
    ensures fault ==>
      && r == Err(ApiError(InternalServerError, StoreFailureMessage))
      && db.accounts == old(db.accounts) && db.transactions == old(db.transactions)
      && db.nextTransactionId == old(db.nextTransactionId)
    ensures !fault ==> var t := DepositRow(old(db.nextTransactionId), old(db.accounts)[i].id, amount, kind, now);
      && db.transactions == old(db.transactions) + [t]
      && db.nextTransactionId == old(db.nextTransactionId) + 1
      && db.accounts == Credit(old(db.accounts), i, amount)
      && r.Ok? && r.value.newBalance == old(db.accounts)[i].balance + amount
      && NewestRow(db.transactions, old(db.accounts)[i].id) == Some(r.value.transaction)
  {
    if fault {
      return Err(ApiError(InternalServerError, StoreFailureMessage));
    }
    var accountId := db.accounts[i].id;
    var t := DepositRow(db.nextTransactionId, accountId, amount, kind, now);
    FindAccountByIdUnique(db.accounts, db.nextAccountId, i);
    var current := FindAccountById(db.accounts, accountId);
    var newBalance := db.accounts[current.value].balance + amount;
    DepositHasHistory(db.transactions, t);
    db.RecordDeposit(i, t);
    var txRow := NewestRow(db.transactions, accountId);
    return Ok(FundResult(txRow.value, newBalance));
  }

  /** A successful funding reports the row it inserted, as long as no earlier
      row of the account is stamped later than `now`, and the new balance is
      the ledger sum. */
  lemma FundingReportsItsOwnRow(db: Database, accountId: nat, t: Transaction, i: nat)
    requires db.Valid() && i < |db.accounts| && db.accounts[i].id == accountId
    requires t.id == db.nextTransactionId && t.accountId == accountId && t.amount > 0
    requires forall k :: 0 <= k < |db.transactions| && db.transactions[k].accountId == accountId ==>
      db.transactions[k].createdAt <= t.createdAt
    ensures NewestRow(db.transactions + [t], accountId) == Some(t)
    ensures db.accounts[i].balance + t.amount == SumFor(db.transactions + [t], accountId)
  {
    NewestRowIsInserted(db.transactions, db.accounts, db.nextTransactionId, t);
    AppendRow(db.transactions, t, accountId);
  }

  /** One funding of account `i`, seen from one owner and one account: the
      account is found as before, stays active, gains the amount and one row. */
  lemma FundingStep(accounts: seq<Account>, nextAcc: nat, txs: seq<Transaction>, i: nat, userId: nat, t: Transaction)
    requires AccountsWellFormed(accounts, nextAcc) && i < |accounts| && t.accountId == accounts[i].id
    ensures FindOwnedAccount(Credit(accounts, i, t.amount), t.accountId, userId) == FindOwnedAccount(accounts, t.accountId, userId)
    ensures Credit(accounts, i, t.amount)[i].balance == accounts[i].balance + t.amount
    ensures Credit(accounts, i, t.amount)[i].status == accounts[i].status
    ensures CountFor(txs + [t], t.accountId) == CountFor(txs, t.accountId) + 1
  {
    FindOwnedSameKeys(accounts, Credit(accounts, i, t.amount), t.accountId, userId);
    AppendRow(txs, t, t.accountId);
  }

  /** One `fundAccount` call that passes every check and meets no store
      failure, seen from the funded
      account: it is still found and active, its balance grows by `amount`
      and it gains one row. */
  method FundOnce(db: Database, ctx: Context, accountId: nat, amount: int, source: FundingSource, now: int, i: nat)
    requires db.Valid()
    requires ctx.user.Some? && amount > 0 && FundingSourceAccepted(source)
    requires FindOwnedAccount(db.accounts, accountId, ctx.user.value.id) == Some(i)
    requires db.accounts[i].status == Active
    modifies db`accounts, db`transactions, db`nextTransactionId
    ensures db.Valid()
    ensures FindOwnedAccount(db.accounts, accountId, ctx.user.value.id) == Some(i)
    ensures db.accounts[i].status == Active
    ensures db.accounts[i].balance == old(db.accounts[i].balance) + amount
    ensures CountFor(db.transactions, accountId) == old(CountFor(db.transactions, accountId)) + 1
  {
    ghost var before, prev, nextTx := db.transactions, db.accounts, db.nextTransactionId;
    ghost var t := DepositRow(nextTx, accountId, amount, source.kind, now);
    var r := FundAccount(db, ctx, accountId, amount, source, now, false);
    assert db.transactions == before + [t] && db.accounts == Credit(prev, i, amount);
    FundingStep(prev, db.nextAccountId, before, i, ctx.user.value.id, t);
  }

  /** The load the performance test puts on one account: `n` fundings of the
      same amount in a row. The balance grows by `n * amount` and the account
      gains `n` rows. */
  method RepeatedFunding(db: Database, ctx: Context, accountId: nat, amount: int, source: FundingSource,
                         n: nat, now: int)
    requires db.Valid()
    requires ctx.user.Some? && amount > 0 && FundingSourceAccepted(source)
    requires FindOwnedAccount(db.accounts, accountId, ctx.user.value.id).Some?
    requires db.accounts[FindOwnedAccount(db.accounts, accountId, ctx.user.value.id).value].status == Active
    modifies db`accounts, db`transactions, db`nextTransactionId
    ensures db.Valid()
    ensures var i := FindOwnedAccount(old(db.accounts), accountId, ctx.user.value.id).value;
      && FindOwnedAccount(db.accounts, accountId, ctx.user.value.id) == Some(i)
      && db.accounts[i].balance == old(db.accounts)[i].balance + n * amount
      && CountFor(db.transactions, accountId) == old(CountFor(db.transactions, accountId)) + n
  {
    var i := FindOwnedAccount(db.accounts, accountId, ctx.user.value.id).value;
    var k := 0;
    while k < n
      invariant 0 <= k <= n
      invariant db.Valid()
      invariant FindOwnedAccount(db.accounts, accountId, ctx.user.value.id) == Some(i)
      invariant i < |db.accounts| && db.accounts[i].status == Active
      invariant db.accounts[i].balance == old(db.accounts)[i].balance + k * amount
      invariant CountFor(db.transactions, accountId) == old(CountFor(db.transactions, accountId)) + k
    {
      FundOnce(db, ctx, accountId, amount, source, now, i);
      assert (k + 1) * amount == k * amount + amount;
      k := k + 1;
    }
  }

  /** Starting from a fresh account, `n` fundings of `amount` leave a balance of
      `n * amount` over `n` rows, each of `amount`: the balance is the sum of the
      account's rows. */
  lemma FreshAccountAfterFundings(db: Database, i: nat, amount: int)
    requires db.Valid() && i < |db.accounts|
    requires forall k :: 0 <= k < |db.transactions| && db.transactions[k].accountId == db.accounts[i].id ==>
      db.transactions[k].amount == amount
    ensures db.accounts[i].balance == amount * CountFor(db.transactions, db.accounts[i].id)
  {
    UniformAmounts(db.transactions, db.accounts[i].id, amount);
  }

  // ---- Amounts below a cent ----

  // The rest of this module keeps money in whole cents. The server's schema
  // takes any positive number as `amount`, stores it in the row as given, and
  // stores the balance rounded to cents (`toFixed(2)`). Here amounts are
  // measured in thousandths of a dollar to show what whole cents leave out.

  /** Thousandths of a dollar in a cent. */
  const MilliPerCent: nat := 10

  /** `z.number().positive()` on an amount of `m` thousandths. */
  predicate PositiveAmount(m: int) { m > 0 }

  /** `z.number().min(0.01)`, the bound the repository's tickets ask for, on
      an amount of `m` thousandths. */
  predicate AtLeastOneCent(m: int) { m >= MilliPerCent }

  /** `Number(x.toFixed(2))` in cents for a non-negative `x` of `m` thousandths:
      the nearest cent. A tie (last digit 5) depends on the binary value of `x`;
      it is rounded up here. */
  function RoundToCents(m: nat): (c: nat)
    ensures MilliPerCent * c <= m + 5 < MilliPerCent * c + MilliPerCent
    ensures m % MilliPerCent == 0 ==> c == m / MilliPerCent
  {
    (m + 5) / MilliPerCent
  }

  /** The balance in cents the callback stores for a balance of `b` cents and
      an amount of `m` thousandths. */
  function CreditAsWritten(b: nat, m: nat): nat
  {
    RoundToCents(MilliPerCent * b + m)
  }

  /** The schema as written lets through amounts the tickets' bound refuses. */
  lemma PositiveAdmitsSubCent(m: int)
    requires 0 < m < MilliPerCent
    ensures PositiveAmount(m) && !AtLeastOneCent(m)
  {
  }

  /** An amount of whole cents is credited exactly, which is what the model in
      whole cents (`Credit`) states. */
  lemma WholeCentCreditIsExact(b: nat, m: nat)
    requires m % MilliPerCent == 0
    ensures CreditAsWritten(b, m) == b + m / MilliPerCent
  {
  }

  /** A deposit of less than half a cent passes the schema and is stored in its
      row, but the balance does not move: the balance no longer equals the sum
      of the rows. */
  lemma SubCentDepositIsLost(b: nat, m: nat)
    requires 0 < m < 5
    ensures PositiveAmount(m)
    ensures CreditAsWritten(b, m) == b
    ensures MilliPerCent * CreditAsWritten(b, m) != MilliPerCent * b + m
  {
  }

  /** The balance after `n` fundings of `m` thousandths each, starting from `b` cents. */
  function FundedBalance(b: nat, m: nat, n: nat): nat
  {
    if n == 0 then b else CreditAsWritten(FundedBalance(b, m, n - 1), m)
  }

  /** `n` deposits of less than half a cent each add `n * m` thousandths of
      rows and nothing to the balance, so the gap grows without bound. */
  lemma {:induction false} SubCentFundingsNeverAdd(b: nat, m: nat, n: nat)
    requires 0 < m < 5
    ensures FundedBalance(b, m, n) == b
  {
    if n > 0 {
      SubCentFundingsNeverAdd(b, m, n - 1);
      SubCentDepositIsLost(b, m);
    }
  }

  /** With whole-cent amounts, `n` fundings add exactly `n` times the amount. */
  lemma {:induction false} WholeCentFundingsAdd(b: nat, m: nat, n: nat)
    requires m % MilliPerCent == 0
    ensures FundedBalance(b, m, n) == b + n * (m / MilliPerCent)
  {
    if n > 0 {
      WholeCentFundingsAdd(b, m, n - 1);
      WholeCentCreditIsExact(b + (n - 1) * (m / MilliPerCent), m);
      assert (n - 1) * (m / MilliPerCent) + m / MilliPerCent == n * (m / MilliPerCent);
    }
  }

  // ---- History ----

  /** A row of the `getTransactions` result: the row and its account's type. */
  datatype EnrichedTransaction = EnrichedTransaction(transaction: Transaction, accountType: Option<AccountType>)

  /** `accountDetails?.accountType` for the account with id `id`. */
  function AccountTypeOf(accounts: seq<Account>, id: nat): Option<AccountType>
  {
    match FindAccountById(accounts, id)
    case None => None
    case Some(j) => Some(accounts[j].accountType)
  }

  /** The enrichment loop of `getTransactions`: every row, in order, with the
      type of the account it refers to. */
  method Enrich(accounts: seq<Account>, rows: seq<Transaction>) returns (enriched: seq<EnrichedTransaction>)
    ensures |enriched| == |rows|
    ensures forall k :: 0 <= k < |rows| ==>
      enriched[k] == EnrichedTransaction(rows[k], AccountTypeOf(accounts, rows[k].accountId))
  {
    enriched := [];
    for k := 0 to |rows|
      invariant |enriched| == k
      invariant forall l :: 0 <= l < k ==>
        enriched[l] == EnrichedTransaction(rows[l], AccountTypeOf(accounts, rows[l].accountId))
    {
      var details := FindAccountById(accounts, rows[k].accountId);
      var kind := if details.Some? then Some(accounts[details.value].accountType) else None;
      enriched := enriched + [EnrichedTransaction(rows[k], kind)];
    }
  }

  /** `getTransactions({ accountId })`: the ownership check, then each row of
      the ordered history with the type of the account it belongs to, which is
      always the owned account's type. */
  method GetTransactions(db: Database, ctx: Context, accountId: nat) returns (r: Result<seq<EnrichedTransaction>>)
    requires db.Valid()
    ensures ctx.user.None? ==> r == Err(ApiError(Unauthorized, "UNAUTHORIZED"))
    ensures ctx.user.Some? && FindOwnedAccount(db.accounts, accountId, ctx.user.value.id).None? ==>
      r == Err(ApiError(NotFound, "Account not found"))
    ensures ctx.user.Some? && FindOwnedAccount(db.accounts, accountId, ctx.user.value.id).Some? ==> r.Ok?
    ensures r.Ok? ==>
      && ctx.user.Some?
      && FindOwnedAccount(db.accounts, accountId, ctx.user.value.id).Some?
      && var a := db.accounts[FindOwnedAccount(db.accounts, accountId, ctx.user.value.id).value];
         && |r.value| == |OrderedHistory(db.transactions, accountId)|
         && forall k :: 0 <= k < |r.value| ==>
              r.value[k] == EnrichedTransaction(OrderedHistory(db.transactions, accountId)[k], Some(a.accountType))
  {
    var auth := Protect(ctx);
    if auth.Err? {
      return Err(auth.error);
    }
    var owned := FindOwnedAccount(db.accounts, accountId, auth.value.id);
    if owned.None? {
      return Err(ApiError(NotFound, "Account not found"));
    }
    var rows := OrderedHistory(db.transactions, accountId);
    HistoryRowsHaveOwnersType(db.accounts, db.nextAccountId, db.transactions, owned.value);
    var enriched := Enrich(db.accounts, rows);
    return Ok(enriched);
  }

  /** Every row of an account's history is enriched with that account's type. */
  lemma HistoryRowsHaveOwnersType(accounts: seq<Account>, nextId: nat, txs: seq<Transaction>, i: nat)
    requires AccountsWellFormed(accounts, nextId) && i < |accounts|
    ensures forall t :: t in OrderedHistory(txs, accounts[i].id) ==>
      AccountTypeOf(accounts, t.accountId) == Some(accounts[i].accountType)
  {
    OrderedHistoryIsTheAccountsRows(txs, accounts[i].id);
    FindAccountByIdUnique(accounts, nextId, i);
  }
}
