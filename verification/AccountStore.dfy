// The account tables and the statements on them. A statement that fails leaves its table
// as it was. Foreign keys are not enforced and nothing cascades, which is SQLite's default.

module AccountStore {
  import opened Common

  datatype Account = Account(
    id: int, name: string, email: string, password: string, token: string,
    activated: bool, code: string, epoch: int)

  datatype Sip = Sip(id: int, address: string, accountId: int)

  datatype Caller = Caller(
    id: int, displayName: string, impu: string, impi: string, realm: string, ha1: string, sipId: int)

  // The rows in the order of their ids; ids are handed out in sequence and never again.
  datatype Db = Db(
    accounts: seq<Account>, sips: seq<Sip>, callers: seq<Caller>,
    nextAccount: int, nextSip: int, nextCaller: int)

  function EmptyDb(): Db { Db([], [], [], 1, 1, 1) }

  // ------------------------------------------------------------- statements

  // SELECT ... WHERE email = ?, the first row
  function ByEmail(rows: seq<Account>, email: string): (r: Option<Account>)
    ensures r.Some? ==> r.value in rows && r.value.email == email
  {
    if rows == [] then None
    else if rows[0].email == email then Some(rows[0])
    else ByEmail(rows[1..], email)
  }

  // DELETE FROM account WHERE epoch < ? AND activated = 0
  function WithoutZombies(rows: seq<Account>, cutoff: int): seq<Account> {
    if rows == [] then []
    else if rows[0].epoch < cutoff && !rows[0].activated then WithoutZombies(rows[1..], cutoff)
    else [rows[0]] + WithoutZombies(rows[1..], cutoff)
  }

  // UPDATE account SET ... WHERE id = ?
  function Updated(rows: seq<Account>, a: Account): (r: seq<Account>)
    ensures |r| == |rows|
  {
    if rows == [] then []
    else [if rows[0].id == a.id then a else rows[0]] + Updated(rows[1..], a)
  }

  function WithoutSip(rows: seq<Sip>, id: int): seq<Sip> {
    if rows == [] then []
    else if rows[0].id == id then WithoutSip(rows[1..], id)
    else [rows[0]] + WithoutSip(rows[1..], id)
  }

  function WithoutCaller(rows: seq<Caller>, id: int): seq<Caller> {
    if rows == [] then []
    else if rows[0].id == id then WithoutCaller(rows[1..], id)
    else [rows[0]] + WithoutCaller(rows[1..], id)
  }

  // INSERT INTO account: the email is unique.
  function Insert(db: Db, a: Account): Option<Db> {
    if ByEmail(db.accounts, a.email).Some? then None
    else Some(db.(accounts := db.accounts + [a.(id := db.nextAccount)], nextAccount := db.nextAccount + 1))
  }

  function InsertSip(db: Db, address: string, accountId: int): Db {
    db.(sips := db.sips + [Sip(db.nextSip, address, accountId)], nextSip := db.nextSip + 1)
  }

  function InsertCaller(db: Db, c: Caller): Db {
    db.(callers := db.callers + [c.(id := db.nextCaller)], nextCaller := db.nextCaller + 1)
  }

  // ------------------------------------------------------------------- retry

  const BUSY := 5

  // The delay before the n-th try: 200 ms, doubled each time.
  function Delay(n: nat): nat { if n == 0 then 200 else 2 * Delay(n - 1) }

  // dbStep and dbTransacExec: while the database is busy, wait twice as long and try
  // again, five times at most.
  method Retry(attempt: nat -> int) returns (ret: int, tries: nat)
    ensures 1 <= tries <= 5 && ret == attempt(tries - 1)
    ensures forall i :: 0 <= i < tries - 1 ==> attempt(i) == 5
    ensures ret != 5 || tries == 5
  {
    var timeOut := 200;
    tries := 0;
    ret := 0;
    assert Delay(1) == 400 && Delay(2) == 800 && Delay(3) == 1600 && Delay(4) == 3200 && Delay(5) == 6400;
    while timeOut < 6400
      invariant tries <= 5 && timeOut == Delay(tries)
      invariant tries > 0 ==> ret == attempt(tries - 1)
      invariant forall i :: 0 <= i < tries ==> attempt(i) == BUSY
      decreases 5 - tries
    {
      ret := attempt(tries);
      tries := tries + 1;
      if ret != BUSY { break; }
      timeOut := timeOut * 2;
    }
  }

  // ---------------------------------------------------------------- requests

  // What the outside contributes to serving one request: the time, which statements work,
  // whether a captcha can be sent off, and the random texts for a new account.
  datatype Env = Env(
    now: int, selects: bool, kills: bool, writes: bool, validates: bool,
    password: string, token: string, code: string)

  datatype Request =
    | AddAccount(email: string, name: string)
    | Verify(email: string, name: string, captcha: string)
    | Activate(email: string, code: string)
    | AddSip(email: string, token: string, address: string)
    | AddCaller(email: string, token: string, caller: Caller)
    | Info(email: string, token: string)
    | DeleteSip(email: string, token: string, id: int)
    | DeleteCaller(email: string, token: string, id: int)

  const SUCCESS := 200
  const ACCEPTED := 202
  const UNAUTHORIZED := 403
  const NOT_FOUND := 404
  const PARSING_FAILED := 420
  const INVALID_DATA_TYPE := 483
  const INTERNAL_ERROR := 603

  const ZOMBIE_LIFE_TIME := 172_800_000
  const ACCOUNTS_BETWEEN_KILLS := 100

  // The tables and the number of accounts added since the start.
  datatype State = State(db: Db, accountsCount: nat)

  // A read account carries no epoch, so it gets the present time.
  function Select(db: Db, email: string, env: Env): Option<Account> {
    if !env.selects then None
    else
      match ByEmail(db.accounts, email)
      case None => None
      case Some(a) => Some(a.(epoch := env.now))
  }

  function KillZombies(s: State, env: Env): Db {
    if (s.accountsCount == 0 || s.accountsCount % ACCOUNTS_BETWEEN_KILLS == 0) && env.kills then
      s.db.(accounts := WithoutZombies(s.db.accounts, env.now - ZOMBIE_LIFE_TIME))
    else s.db
  }

  function Update(db: Db, a: Account, env: Env): (Db, nat) {
    if env.writes then (db.(accounts := Updated(db.accounts, a)), SUCCESS) else (db, INTERNAL_ERROR)
  }

  // addAccountAndSendActivationMail
  function Add(s: State, email: string, name: string, env: Env): (State, nat) {
    var db := KillZombies(s, env);
    var (db', reply) :=
      match Select(db, email, env)
      case Some(a) => Update(db, a.(name := name), env)
      case None =>
        var a := Account(-1, name, email, env.password, env.token, false, env.code, env.now);
        if !env.writes then (db, INTERNAL_ERROR)
        else
          match Insert(db, a)
          case None => (db, INTERNAL_ERROR)
          case Some(db') => (db', SUCCESS);
    (State(db', s.accountsCount + 1), reply)
  }

  // The checks before every request on an existing account.
  function Authorize(db: Db, email: string, token: string, env: Env): (r: (Option<Account>, nat)) {
    match Select(db, email, env)
    case None => (None, NOT_FOUND)
    case Some(a) =>
      if !a.activated then (None, UNAUTHORIZED)
      else if a.token != token then (None, UNAUTHORIZED)
      else (Some(a), SUCCESS)
  }

  function ActivateAccount(db: Db, email: string, code: string, env: Env): (Db, nat) {
    match Select(db, email, env)
    case None => (db, NOT_FOUND)
    case Some(a) =>
      if !EqualsIgnoringCase(a.code, code) then (db, INVALID_DATA_TYPE)
      else if a.activated then (db, SUCCESS)
      else Update(db, a.(activated := true), env)
  }

  // handleJsonContent, once the fields are read
  function Serve(s: State, request: Request, env: Env): (State, nat) {
    match request
    case AddAccount(email, name) => Add(s, email, name, env)
    case Verify(email, name, captcha) => (s, if env.validates then ACCEPTED else INTERNAL_ERROR)
    case Activate(email, code) =>
      var (db, reply) := ActivateAccount(s.db, email, code, env);
      (s.(db := db), reply)
    case AddSip(email, token, address) =>
      var (a, reply) := Authorize(s.db, email, token, env);
      if a.None? then (s, reply)
      else if !env.writes then (s, INTERNAL_ERROR)
      else (s.(db := InsertSip(s.db, address, a.value.id)), SUCCESS)
    case AddCaller(email, token, caller) =>
      var (a, reply) := Authorize(s.db, email, token, env);
      if a.None? then (s, reply)
      else if !env.writes then (s, INTERNAL_ERROR)
      else (s.(db := InsertCaller(s.db, caller)), SUCCESS)
    case Info(email, token) => (s, Authorize(s.db, email, token, env).1)
    case DeleteSip(email, token, id) =>
      var (a, reply) := Authorize(s.db, email, token, env);
      if a.None? then (s, reply)
      else if !env.writes then (s, INTERNAL_ERROR)
      else (s.(db := s.db.(sips := WithoutSip(s.db.sips, id))), SUCCESS)
    case DeleteCaller(email, token, id) =>
      var (a, reply) := Authorize(s.db, email, token, env);
      if a.None? then (s, reply)
      else if !env.writes then (s, INTERNAL_ERROR)
      else (s.(db := s.db.(callers := WithoutCaller(s.db.callers, id))), SUCCESS)
  }

  // -------------------------------------------------------------- invariants

  // The row with this id.
  function ById(rows: seq<Account>, id: int): (r: Option<Account>)
    ensures r.Some? ==> r.value in rows && r.value.id == id
  {
    if rows == [] then None
    else if rows[0].id == id then Some(rows[0])
    else ById(rows[1..], id)
  }

  // Ids are distinct and below the next one, emails are distinct.
  ghost predicate Keys(rows: seq<Account>, next: int) {
    && (forall i :: 0 <= i < |rows| ==> rows[i].id < next)
    && (forall i, j :: 0 <= i < j < |rows| ==> rows[i].id != rows[j].id && rows[i].email != rows[j].email)
  }

  // The same account, activated: only its name and epoch may differ.
  predicate SameIdentity(a: Account, b: Account) {
    && a.id == b.id && a.email == b.email && a.password == b.password && a.token == b.token
    && a.code == b.code && a.activated && b.activated
  }

  ghost predicate Survives(a: Account, rows: seq<Account>) {
    ById(rows, a.id).Some? && SameIdentity(a, ById(rows, a.id).value)
  }

  // Every SIP address belongs to an account that is present and activated.
  ghost predicate SipsBelong(db: Db) {
    forall i :: 0 <= i < |db.sips| ==> Present(db.accounts, db.sips[i].accountId)
  }

  predicate Present(rows: seq<Account>, id: int) {
    ById(rows, id).Some? && ById(rows, id).value.activated
  }

  ghost predicate Ok(db: Db) {
    Keys(db.accounts, db.nextAccount) && SipsBelong(db)
  }

  // ------------------------------------------------------------------ proofs

  lemma KeysTail(rows: seq<Account>, next: int)
    requires rows != [] && Keys(rows, next)
    ensures Keys(rows[1..], next) && ById(rows[1..], rows[0].id).None? && ByEmail(rows[1..], rows[0].email).None?
  {
  }

  lemma {:induction false} Found(rows: seq<Account>, a: Account, next: int)
    requires a in rows && Keys(rows, next)
    ensures ById(rows, a.id) == Some(a) && ByEmail(rows, a.email) == Some(a)
    decreases |rows|
  {
    KeysTail(rows, next);
    if a != rows[0] { Found(rows[1..], a, next); }
  }

  // What a change of rows may do: activated accounts stay what they are.
  ghost predicate KeepsActivated(rows: seq<Account>, rows': seq<Account>) {
    forall id :: Present(rows, id) ==> Survives(ById(rows, id).value, rows')
  }

  lemma {:induction false} ZombiesKeep(rows: seq<Account>, cutoff: int, next: int)
    requires Keys(rows, next)
    ensures Keys(WithoutZombies(rows, cutoff), next)
    ensures forall a :: a in WithoutZombies(rows, cutoff) ==> a in rows
    ensures forall id :: Present(rows, id) ==> ById(WithoutZombies(rows, cutoff), id) == ById(rows, id)
    decreases |rows|
  {
    if rows != [] {
      KeysTail(rows, next);
      ZombiesKeep(rows[1..], cutoff, next);
      var rest := WithoutZombies(rows[1..], cutoff);
      forall i | 0 <= i < |rest|
        ensures rest[i].id != rows[0].id && rest[i].email != rows[0].email && rest[i].id < next
      {
        assert rest[i] in rest;
      }
    }
  }

  lemma {:induction false} UpdateKeeps(rows: seq<Account>, a: Account, next: int)
    requires Keys(rows, next)
    requires forall i :: 0 <= i < |rows| && rows[i].id == a.id ==> rows[i].email == a.email
    ensures var r := Updated(rows, a);
            && Keys(r, next)
            && (forall i :: 0 <= i < |rows| ==> r[i] == if rows[i].id == a.id then a else rows[i])
            && (forall id :: ById(rows, id).Some? ==>
                  ById(r, id) == Some(if id == a.id then a else ById(rows, id).value))
    decreases |rows|
  {
    if rows != [] {
      KeysTail(rows, next);
      UpdateKeeps(rows[1..], a, next);
    }
  }

  lemma {:induction false} ByIdOfMore(rows: seq<Account>, a: Account, id: int)
    ensures ById(rows, id).Some? ==> ById(rows + [a], id) == ById(rows, id)
    decreases |rows|
  {
    if rows != [] {
      assert (rows + [a])[1..] == rows[1..] + [a];
      ByIdOfMore(rows[1..], a, id);
    }
  }

  lemma {:induction false} NoEmail(rows: seq<Account>, email: string)
    requires ByEmail(rows, email).None?
    ensures forall i :: 0 <= i < |rows| ==> rows[i].email != email
    decreases |rows|
  {
    if rows != [] { NoEmail(rows[1..], email); }
  }

  lemma {:induction false} SipRowsKept(rows: seq<Sip>, id: int)
    ensures forall s :: s in WithoutSip(rows, id) ==> s in rows && s.id != id
    ensures forall s :: s in rows && s.id != id ==> s in WithoutSip(rows, id)
    decreases |rows|
  {
    if rows != [] { SipRowsKept(rows[1..], id); }
  }

  // One request: the tables stay in order and activated accounts keep their identity.
  ghost predicate Safe(db: Db, db': Db) {
    Ok(db') && KeepsActivated(db.accounts, db'.accounts) && db.nextAccount <= db'.nextAccount
  }

  lemma KeepsBelong(db: Db, rows: seq<Account>)
    requires SipsBelong(db) && KeepsActivated(db.accounts, rows)
    ensures SipsBelong(db.(accounts := rows))
  {
  }

  lemma SafeUpdate(db: Db, a: Account, row: Account)
    requires Ok(db) && row in db.accounts && a.id == row.id && a.email == row.email
    requires row.activated ==> SameIdentity(row, a)
    ensures Safe(db, db.(accounts := Updated(db.accounts, a)))
  {
    Found(db.accounts, row, db.nextAccount);
    forall i | 0 <= i < |db.accounts| && db.accounts[i].id == a.id ensures db.accounts[i].email == a.email {
      Found(db.accounts, db.accounts[i], db.nextAccount);
    }
    UpdateKeeps(db.accounts, a, db.nextAccount);
    hide Keys;
    KeepsBelong(db, Updated(db.accounts, a));
  }

  lemma SafeInsert(db: Db, a: Account)
    requires Ok(db) && Insert(db, a).Some?
    ensures Safe(db, Insert(db, a).value)
  {
    var b := a.(id := db.nextAccount);
    NoEmail(db.accounts, a.email);
    forall id | Present(db.accounts, id) ensures Survives(ById(db.accounts, id).value, db.accounts + [b]) {
      ByIdOfMore(db.accounts, b, id);
    }
    KeepsBelong(db, db.accounts + [b]);
  }

  lemma SafeKill(db: Db, cutoff: int)
    requires Ok(db)
    ensures Safe(db, db.(accounts := WithoutZombies(db.accounts, cutoff)))
  {
    ZombiesKeep(db.accounts, cutoff, db.nextAccount);
    hide Keys, WithoutZombies;
    KeepsBelong(db, WithoutZombies(db.accounts, cutoff));
  }

  lemma SafeTwice(db: Db, db1: Db, db2: Db)
    requires Safe(db, db1) && Safe(db1, db2)
    ensures Safe(db, db2)
  {
    forall id | Present(db.accounts, id) ensures Survives(ById(db.accounts, id).value, db2.accounts) {
      assert Present(db1.accounts, id);
    }
  }

  lemma SafeSame(db: Db)
    requires Ok(db)
    ensures Safe(db, db)
  {
  }

  lemma AddIsSafe(s: State, email: string, name: string, env: Env)
    requires Ok(s.db)
    ensures Safe(s.db, Add(s, email, name, env).0.db)
  {
    var db := KillZombies(s, env);
    SafeSame(s.db);
    SafeKill(s.db, env.now - ZOMBIE_LIFE_TIME);
    assert Safe(s.db, db);
    SafeSame(db);
    var found := Select(db, email, env);
    if found.Some? {
      SafeUpdate(db, found.value.(name := name), ByEmail(db.accounts, email).value);
    } else {
      var a := Account(-1, name, email, env.password, env.token, false, env.code, env.now);
      if Insert(db, a).Some? { SafeInsert(db, a); }
    }
    hide Safe, Insert, Updated, KillZombies;
    SafeTwice(s.db, db, Add(s, email, name, env).0.db);
  }

  lemma SipIsSafe(db: Db, address: string, a: Account)
    requires Ok(db) && a in db.accounts && a.activated
    ensures Safe(db, InsertSip(db, address, a.id))
  {
    Found(db.accounts, a, db.nextAccount);
    hide Keys;
  }

  lemma ServeIsSafe(s: State, request: Request, env: Env)
    requires Ok(s.db)
    ensures Safe(s.db, Serve(s, request, env).0.db)
  {
    SafeSame(s.db);
    match request {
      case AddAccount(email, name) => AddIsSafe(s, email, name, env);
      case Activate(email, code) =>
        var found := Select(s.db, email, env);
        if found.Some? && !found.value.activated {
          SafeUpdate(s.db, found.value.(activated := true), ByEmail(s.db.accounts, email).value);
        }
      case AddSip(email, token, address) =>
        var (a, _) := Authorize(s.db, email, token, env);
        if a.Some? { SipIsSafe(s.db, address, ByEmail(s.db.accounts, email).value); }
      case DeleteSip(email, token, id) =>
        SipRowsKept(s.db.sips, id);
        var rows := WithoutSip(s.db.sips, id);
        assert forall i :: 0 <= i < |rows| ==> rows[i] in rows;
      case _ =>
    }
  }

  function Run(requests: seq<(Request, Env)>): State {
    if requests == [] then State(EmptyDb(), 0)
    else Serve(Run(requests[..|requests| - 1]), requests[|requests| - 1].0, requests[|requests| - 1].1).0
  }

  lemma {:induction false} RunIsOk(requests: seq<(Request, Env)>)
    ensures Ok(Run(requests).db)
    decreases |requests|
  {
    if requests != [] {
      RunIsOk(requests[..|requests| - 1]);
      ServeIsSafe(Run(requests[..|requests| - 1]), requests[|requests| - 1].0, requests[|requests| - 1].1);
    }
  }

  lemma SurvivesStep(a: Account, db: Db, db': Db)
    requires Survives(a, db.accounts) && Safe(db, db')
    ensures Survives(a, db'.accounts)
  {
    hide Ok;
    assert Present(db.accounts, a.id);
  }

  lemma RunNext(before: seq<(Request, Env)>, r: (Request, Env))
    ensures Run(before + [r]) == Serve(Run(before), r.0, r.1).0
  {
    assert (before + [r])[..|before|] == before;
    hide Serve;
  }

  // Over all runs, whatever fails and whenever zombies are killed: an account that is
  // activated at some point is there ever after, activated, with the same id, email,
  // password, token and activation code.
  lemma {:induction false} ActivatedForever(before: seq<(Request, Env)>, after: seq<(Request, Env)>, id: int)
    requires Present(Run(before).db.accounts, id)
    ensures Survives(ById(Run(before).db.accounts, id).value, Run(before + after).db.accounts)
    decreases |after|
  {
    hide Run, Serve, Safe, Ok;
    if after == [] {
      assert before + after == before;
    } else {
      var last := |after| - 1;
      var now := before + after[..last];
      ActivatedForever(before, after[..last], id);
      assert now + [after[last]] == before + after;
      RunNext(now, after[last]);
      RunIsOk(now);
      ServeIsSafe(Run(now), after[last].0, after[last].1);
      SurvivesStep(ById(Run(before).db.accounts, id).value, Run(now).db, Run(before + after).db);
    }
  }

  // So every SIP address refers to an account that is present and activated, at all times
  // and without any cascade.
  lemma SipsAlwaysBelong(requests: seq<(Request, Env)>)
    ensures SipsBelong(Run(requests).db)
  {
    RunIsOk(requests);
  }

  // An account that was not activated is gone exactly when it is older than the limit, on
  // every hundredth addition.
  lemma {:induction false} KilledIff(rows: seq<Account>, cutoff: int, next: int, a: Account)
    requires Keys(rows, next) && a in rows
    ensures a !in WithoutZombies(rows, cutoff) <==> a.epoch < cutoff && !a.activated
    decreases |rows|
  {
    KeysTail(rows, next);
    if a != rows[0] {
      KilledIff(rows[1..], cutoff, next, a);
    } else {
      ZombiesKeep(rows[1..], cutoff, next);
      if a in rows[1..] { Found(rows[1..], a, next); }
    }
  }
}
