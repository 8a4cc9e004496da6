// What a request comes to, row by row: the reply it gets and the rows that it leaves, said
// on the rows of the tables without the statements that are made on them.

module AccountEffects {
  import opened Common
  import opened AccountStore
  import AccountOwnership

  // ----------------------------------------------------------------- replies

  predicate HasEmail(db: Db, email: string) {
    exists i :: 0 <= i < |db.accounts| && db.accounts[i].email == email
  }

  // An activated account with this email and token.
  predicate Signs(a: Account, email: string, token: string) {
    a.email == email && a.activated && a.token == token
  }

  predicate IsSigned(db: Db, email: string, token: string) {
    exists i :: 0 <= i < |db.accounts| && Signs(db.accounts[i], email, token)
  }

  // The code that a request for an existing account is refused with, if it is.
  function Refusal(db: Db, email: string, token: string, env: Env): Option<nat> {
    if !env.selects || !HasEmail(db, email) then Some(404)
    else if !IsSigned(db, email, token) then Some(403)
    else None
  }

  lemma {:induction false} EmailFound(rows: seq<Account>, email: string)
    ensures ByEmail(rows, email).Some? <==> exists i :: 0 <= i < |rows| && rows[i].email == email
    decreases |rows|
  {
    if rows != [] && rows[0].email != email {
      EmailFound(rows[1..], email);
      forall i | 0 <= i < |rows| && rows[i].email == email ensures rows[1..][i - 1] == rows[i] {}
    }
  }

  lemma RowFound(db: Db, i: int)
    requires Ok(db) && 0 <= i < |db.accounts|
    ensures ByEmail(db.accounts, db.accounts[i].email) == Some(db.accounts[i])
  {
    Found(db.accounts, db.accounts[i], db.nextAccount);
  }

  // Up to its epoch, which is not read from the table.
  predicate IsOf(db: Db, a: Account, email: string, token: string) {
    exists i :: 0 <= i < |db.accounts| && Signs(db.accounts[i], email, token) && a == db.accounts[i].(epoch := 0)
  }

  // A request is authorized for the account whose email and token it carries, and for no
  // other; the look-up is tried before the token.
  lemma AuthorizedIff(db: Db, email: string, token: string, env: Env)
    requires Ok(db)
    ensures var (a, code) := Authorize(db, email, token, env);
            match Refusal(db, email, token, env)
            case Some(refusal) => a.None? && code == refusal
            case None => a.Some? && code == 200 && IsOf(db, a.value.(epoch := 0), email, token)
    ensures var a := Authorize(db, email, token, env).0; a.Some? ==> a.value.epoch == env.now
  {
    hide Ok;
    EmailFound(db.accounts, email);
    forall i | 0 <= i < |db.accounts| && db.accounts[i].email == email
      ensures ByEmail(db.accounts, email) == Some(db.accounts[i])
    {
      RowFound(db, i);
    }
  }

  // -------------------------------------------------------------------- rows

  predicate OneMore<T(==)>(rows: seq<T>, rows': seq<T>) {
    |rows'| == |rows| + 1 && rows'[..|rows|] == rows
  }

  // The rows of an id are gone, and all others are there as often as before.
  ghost predicate SipsWithout(rows: seq<Sip>, rows': seq<Sip>, id: int) {
    forall x :: multiset(rows')[x] == if x.id == id then 0 else multiset(rows)[x]
  }

  ghost predicate CallersWithout(rows: seq<Caller>, rows': seq<Caller>, id: int) {
    forall x :: multiset(rows')[x] == if x.id == id then 0 else multiset(rows)[x]
  }

  // What a request does for the account that it is authorized for.
  ghost predicate Effect(db: Db, request: Request, owner: int, db': Db) {
    match request
    case AddSip(_, _, address) =>
      && db' == db.(sips := db'.sips, nextSip := db.nextSip + 1) && OneMore(db.sips, db'.sips)
      && var row := db'.sips[|db.sips|]; row.id == db.nextSip && row.address == address && row.accountId == owner
    case AddCaller(_, _, c) =>
      && db' == db.(callers := db'.callers, nextCaller := db.nextCaller + 1) && OneMore(db.callers, db'.callers)
      && var row := db'.callers[|db.callers|];
         && row.id == db.nextCaller && row.displayName == c.displayName && row.impu == c.impu && row.impi == c.impi
         && row.realm == c.realm && row.ha1 == c.ha1 && row.sipId == c.sipId
    case DeleteSip(_, _, id) => db' == db.(sips := db'.sips) && SipsWithout(db.sips, db'.sips, id)
    case DeleteCaller(_, _, id) => db' == db.(callers := db'.callers) && CallersWithout(db.callers, db'.callers, id)
    case _ => db' == db
  }

  lemma {:induction false} SipsAreWithout(rows: seq<Sip>, id: int)
    ensures SipsWithout(rows, WithoutSip(rows, id), id)
    decreases |rows|
  {
    if rows != [] {
      SipsAreWithout(rows[1..], id);
      assert rows == [rows[0]] + rows[1..];
    }
  }

  lemma {:induction false} CallersAreWithout(rows: seq<Caller>, id: int)
    ensures CallersWithout(rows, WithoutCaller(rows, id), id)
    decreases |rows|
  {
    if rows != [] {
      CallersAreWithout(rows[1..], id);
      assert rows == [rows[0]] + rows[1..];
    }
  }

  // Requests that carry a token: refused with nothing changed, or authorized; then the
  // effect is there exactly when the tables can be written, with 200, and 603 otherwise.
  lemma TokenRequestIs(s: State, request: Request, env: Env)
    requires Ok(s.db) && AccountOwnership.IsAuthorized(request)
    ensures var (t, code) := Serve(s, request, env);
            match Refusal(s.db, request.email, request.token, env)
            case Some(refusal) => t == s && code == refusal
            case None =>
              if !env.writes && !request.Info? then t == s && code == 603
              else
                && code == 200 && t.accountsCount == s.accountsCount
                && forall i :: 0 <= i < |s.db.accounts| && Signs(s.db.accounts[i], request.email, request.token) ==>
                     Effect(s.db, request, s.db.accounts[i].id, t.db)
  {
    hide Ok, Authorize, Refusal, ByEmail, WithoutSip, WithoutCaller, KillZombies;
    AuthorizedIff(s.db, request.email, request.token, env);
    SignedIsOne(s.db, request.email, request.token);
    match request {
      case DeleteSip(_, _, id) => SipsAreWithout(s.db.sips, id);
      case DeleteCaller(_, _, id) => CallersAreWithout(s.db.callers, id);
      case _ =>
    }
    hide SipsWithout, CallersWithout;
  }

  lemma SignedIsOne(db: Db, email: string, token: string)
    requires Ok(db)
    ensures forall i, j ::
              0 <= i < |db.accounts| && 0 <= j < |db.accounts| ==>
                Signs(db.accounts[i], email, token) && Signs(db.accounts[j], email, token) ==> i == j
  {
  }

  // An account is activated by a request with its email and its code, in any case of the
  // letters, and nothing else of it changes but its epoch.
  lemma ActivationIs(s: State, email: string, code: string, env: Env)
    requires Ok(s.db)
    ensures var (t, reply) := Serve(s, Activate(email, code), env);
            && (!env.selects || !HasEmail(s.db, email) ==> t == s && reply == 404)
            && forall i :: 0 <= i < |s.db.accounts| && s.db.accounts[i].email == email && env.selects ==>
                 var row := s.db.accounts[i];
                 if !EqualsIgnoringCase(row.code, code) then t == s && reply == 483
                 else if row.activated then t == s && reply == 200
                 else if !env.writes then t == s && reply == 603
                 else
                   && reply == 200
                   && t == s.(db := s.db.(accounts := s.db.accounts[i := row.(activated := true, epoch := env.now)]))
  {
    hide EqualsIgnoringCase;
    EmailFound(s.db.accounts, email);
    forall i | 0 <= i < |s.db.accounts| && s.db.accounts[i].email == email
      ensures ByEmail(s.db.accounts, email) == Some(s.db.accounts[i])
      ensures forall a: Account :: a.id == s.db.accounts[i].id && a.email == email ==>
                Updated(s.db.accounts, a) == s.db.accounts[i := a]
    {
      RowFound(s.db, i);
      forall a: Account | a.id == s.db.accounts[i].id && a.email == email
        ensures Updated(s.db.accounts, a) == s.db.accounts[i := a]
      {
        RowReplaced(s.db, i, a);
      }
    }
    hide Ok, ByEmail, Updated;
  }

  lemma RowReplaced(db: Db, i: int, a: Account)
    requires Ok(db) && 0 <= i < |db.accounts| && a.id == db.accounts[i].id && a.email == db.accounts[i].email
    ensures Updated(db.accounts, a) == db.accounts[i := a]
  {
    UpdateKeeps(db.accounts, a, db.nextAccount);
    hide Updated;
  }

  predicate InRows(rows: seq<Account>, email: string) {
    exists i :: 0 <= i < |rows| && rows[i].email == email
  }

  // An addition first sweeps, then renames the account that has the email already or makes
  // a new one; it gets 603 and only sweeps where it cannot write, or cannot see that the
  // email is taken.
  lemma AdditionIs(s: State, email: string, name: string, env: Env)
    requires Ok(s.db)
    ensures var (t, reply) := Serve(s, AddAccount(email, name), env);
            var swept := KillZombies(s, env);
            && t.accountsCount == s.accountsCount + 1
            && (!env.writes || (!env.selects && InRows(swept.accounts, email)) ==> reply == 603 && t.db == swept)
            && (env.writes && !InRows(swept.accounts, email) ==>
                  && reply == 200
                  && t.db == swept.(accounts := t.db.accounts, nextAccount := swept.nextAccount + 1)
                  && OneMore(swept.accounts, t.db.accounts)
                  && t.db.accounts[|swept.accounts|] ==
                     Account(swept.nextAccount, name, email, env.password, env.token, false, env.code, env.now))
            && (env.writes && env.selects ==>
                  forall i :: 0 <= i < |swept.accounts| && swept.accounts[i].email == email ==>
                    var row := swept.accounts[i].(name := name, epoch := env.now);
                    reply == 200 && t.db == swept.(accounts := swept.accounts[i := row]))
  {
    var db := KillZombies(s, env);
    SafeSame(s.db);
    SafeKill(s.db, env.now - ZOMBIE_LIFE_TIME);
    assert Ok(db);
    hide KillZombies;
    EmailFound(db.accounts, email);
    forall i | 0 <= i < |db.accounts| && db.accounts[i].email == email
      ensures ByEmail(db.accounts, email) == Some(db.accounts[i])
      ensures var a := db.accounts[i].(name := name, epoch := env.now);
              Updated(db.accounts, a) == db.accounts[i := a]
    {
      RowFound(db, i);
      RowReplaced(db, i, db.accounts[i].(name := name, epoch := env.now));
    }
    hide Ok, ByEmail, Updated;
  }

  // A captcha is handed on or not; nothing is stored before its verdict.
  lemma VerificationIs(s: State, email: string, name: string, captcha: string, env: Env)
    ensures Serve(s, Verify(email, name, captcha), env) == (s, if env.validates then 202 else 603)
  {
  }
}
