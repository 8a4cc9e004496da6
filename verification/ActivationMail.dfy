// The activation mails of the click-to-call service, and how long the codes in them work.

module ActivationMail {
  import opened Common
  import opened AccountStore

  // What a mail tells its reader.
  datatype Letter = Letter(to: string, name: string, code: string, password: string)

  // A mail as it is handed to the mail transport.
  datatype Post = Post(to: string, subject: string, text: string)

  const SUBJECT := "Your click2dial.org registration info"

  function Greeting(l: Letter): string {
    "Hello " + l.name + ",\n\nThank you for registering to our click-to-call service.\n"
  }

  // The code, in itself and in the link that enters it.
  function CodeText(l: Letter, email64: string): string {
    "Your activation code is '" + l.code + "', please visit http://click2dial.org/a/" + email64 + "%3B" + l.code
    + " to activate your account. This code is only valid for 2 days and will be automatically destroyed.\n"
  }

  function AddressText(email64: string): string {
    "Your link address is http://click2dial.org/u/" + email64 + ", you can start sharing it with your contacts. \n"
  }

  function PasswordText(l: Letter): string {
    "Your password is '" + l.password + "' (without the quotes)."
    + " Please keep it private. You can use it to sign in at http://click2dial.org.\n"
  }

  function StepsText(l: Letter): string {
    "Next steps:\n\t1. Activate your account\n\t2. Sign In using your email address and password(" + l.password
    + ")\n\t3. Open your account page(http://click2dial.org/account.htm) and tell us what's your SIP address\nThanks"
  }

  function Text(l: Letter, email64: string): string {
    Greeting(l) + CodeText(l, email64) + AddressText(email64) + PasswordText(l) + StepsText(l)
  }

  // `encode` is the base64 encoding.
  function PostOf(l: Letter, encode: string -> string): Post {
    Post(l.to, SUBJECT, Text(l, encode(l.to)))
  }

  function Posts(ls: seq<Letter>, encode: string -> string): seq<Post> {
    seq(|ls|, i requires 0 <= i < |ls| => PostOf(ls[i], encode))
  }

  // A text that stands between quotes, read from the place where it is quoted.
  function Quoted(text: string, at: nat): string
    requires at <= |text|
    decreases |text| - at
  {
    if at == |text| || text[at] == '\'' then "" else [text[at]] + Quoted(text, at + 1)
  }

  lemma {:induction false} QuotedIs(text: string, at: nat, inner: string)
    requires at + |inner| < |text| && text[at..at + |inner|] == inner && text[at + |inner|] == '\''
    requires '\'' !in inner
    ensures Quoted(text, at) == inner
    decreases |inner|
  {
    if inner != "" {
      assert text[at] == inner[0];
      assert text[at + 1..at + 1 + |inner[1..]|] == inner[1..];
      QuotedIs(text, at + 1, inner[1..]);
    }
  }

  // Where the code and the password begin.
  function CodeAt(l: Letter): nat { |Greeting(l)| + 25 }

  function PasswordAt(l: Letter, email64: string): nat {
    |Greeting(l)| + |CodeText(l, email64)| + |AddressText(email64)| + 18
  }

  // A text that holds something and a quote after it.
  predicate HoldsAt(text: string, at: nat, inner: string) {
    at + |inner| + 1 <= |text| && text[at..at + |inner| + 1] == inner + "'"
  }

  lemma TextHolds(l: Letter, email64: string)
    ensures HoldsAt(Text(l, email64), CodeAt(l), l.code)
    ensures HoldsAt(Text(l, email64), PasswordAt(l, email64), l.password)
  {
    hide Greeting, CodeText, AddressText, PasswordText, StepsText;
    CodeTextHolds(l, email64);
    PasswordTextHolds(l);
    var before, after := Greeting(l) + CodeText(l, email64) + AddressText(email64), StepsText(l);
    PartOf(Greeting(l), CodeText(l, email64), AddressText(email64) + PasswordText(l) + after, 25, |l.code| + 1);
    PartOf(before, PasswordText(l), after, 18, |l.password| + 1);
    Regroup(Greeting(l), CodeText(l, email64), AddressText(email64), PasswordText(l), StepsText(l));
  }

  // What a reader finds at a place of a text, up to the next quote.
  predicate TellsAt(text: string, at: nat, inner: string) {
    at <= |text| && Quoted(text, at) == inner
  }

  // The reader of a mail finds the very code and password in it, each between quotes, also
  // with line ends after the text.
  lemma TextTells(l: Letter, email64: string, more: string)
    requires '\'' !in l.code && '\'' !in l.password
    ensures TellsAt(Text(l, email64) + more, CodeAt(l), l.code)
    ensures TellsAt(Text(l, email64) + more, PasswordAt(l, email64), l.password)
  {
    hide Text, CodeAt, PasswordAt;
    TextHolds(l, email64);
    Inner(Text(l, email64), more, CodeAt(l), l.code);
    Inner(Text(l, email64), more, PasswordAt(l, email64), l.password);
  }

  lemma CodeTextHolds(l: Letter, email64: string)
    ensures HoldsAt(CodeText(l, email64), 25, l.code)
  {
    var start, visit := "Your activation code is '", "', please visit http://click2dial.org/a/";
    var last := " to activate your account. This code is only valid for 2 days and will be automatically destroyed.\n";
    assert visit[0] == '\'';
    AfterQuote(start, l.code, visit, email64 + "%3B" + l.code + last);
    Regroup(start + l.code + visit, email64, "%3B", l.code, last);
  }

  lemma AfterQuote(start: string, inner: string, quote: string, rest: string)
    requires quote != "" && quote[0] == '\''
    ensures var all := start + inner + quote + rest;
            && |start| + |inner| + 1 <= |all|
            && all[|start|..|start| + |inner| + 1] == inner + "'"
  {
  }

  lemma PasswordTextHolds(l: Letter)
    ensures HoldsAt(PasswordText(l), 18, l.password)
  {
    var start, quote := "Your password is '", "' (without the quotes).";
    assert quote[0] == '\'';
    var rest := " Please keep it private. You can use it to sign in at http://click2dial.org.\n";
    AfterQuote(start, l.password, quote, rest);
  }

  lemma PartOf(a: string, b: string, c: string, at: nat, size: nat)
    requires at + size <= |b|
    ensures var all := a + b + c;
            |a| + at + size <= |all| && all[|a| + at..|a| + at + size] == b[at..at + size]
  {
  }

  lemma Regroup(a: string, b: string, c: string, d: string, e: string)
    ensures a + b + (c + d + e) == a + b + c + d + e && a + (b + c + d + e) == a + b + c + d + e
  {
  }

  lemma Inner(text: string, more: string, at: nat, inner: string)
    requires HoldsAt(text, at, inner) && '\'' !in inner
    ensures TellsAt(text + more, at, inner)
  {
    var all := text + more;
    assert all[at..at + |inner| + 1] == text[at..at + |inner| + 1];
    assert all[at..at + |inner| + 1][..|inner|] == inner;
    assert all[at..at + |inner| + 1][|inner|] == '\'';
    QuotedIs(all, at, inner);
  }

  // The mails that addAccountAndSendActivationMail hands to the mail transport.
  function Letters(s: State, email: string, name: string, env: Env): seq<Letter> {
    if Add(s, email, name, env).1 != SUCCESS then []
    else
      match Select(KillZombies(s, env), email, env)
      case Some(a) => [Letter(a.email, name, a.code, a.password)]
      case None => [Letter(email, name, env.code, env.password)]
  }

  function LettersOf(s: State, request: Request, env: Env): seq<Letter> {
    match request
    case AddAccount(email, name) => Letters(s, email, name, env)
    case _ => []
  }

  lemma KillKeepsKeys(s: State, env: Env)
    requires Ok(s.db)
    ensures Ok(KillZombies(s, env)) && KillZombies(s, env).nextAccount == s.db.nextAccount
  {
    SafeSame(s.db);
    SafeKill(s.db, env.now - ZOMBIE_LIFE_TIME);
  }

  lemma {:induction false} LastByEmail(rows: seq<Account>, a: Account)
    requires ByEmail(rows, a.email).None?
    ensures ByEmail(rows + [a], a.email) == Some(a)
    decreases |rows|
  {
    if rows != [] {
      assert (rows + [a])[1..] == rows[1..] + [a];
      LastByEmail(rows[1..], a);
    }
  }

  // A row that is replaced under its own id and email is the one found by either.
  lemma Replaced(db: Db, row: Account, a: Account)
    requires Ok(db) && row in db.accounts && a.id == row.id && a.email == row.email
    ensures ById(Updated(db.accounts, a), a.id) == Some(a) && ByEmail(Updated(db.accounts, a), a.email) == Some(a)
  {
    var rows := Updated(db.accounts, a);
    var next := db.nextAccount;
    Found(db.accounts, row, next);
    forall i | 0 <= i < |db.accounts| && db.accounts[i].id == a.id ensures db.accounts[i].email == a.email {
      Found(db.accounts, db.accounts[i], next);
    }
    UpdateKeeps(db.accounts, a, next);
    var i :| 0 <= i < |db.accounts| && db.accounts[i] == row;
    assert rows[i] == a;
    Found(rows, a, next);
  }

  // One mail goes out for every account that is added or renamed, and none otherwise; it
  // tells the code and the password that the tables then hold for its recipient.
  lemma MailedIff(s: State, email: string, name: string, env: Env)
    requires Ok(s.db)
    ensures var (t, reply) := Add(s, email, name, env);
            var letters, row := Letters(s, email, name, env), ByEmail(t.db.accounts, email);
            && (letters != [] <==> reply == SUCCESS)
            && (reply == SUCCESS <==> env.writes && (env.selects || ByEmail(KillZombies(s, env).accounts, email).None?))
            && (reply == SUCCESS ==>
                  && row.Some? && letters == [Letter(email, name, row.value.code, row.value.password)]
                  && row.value.name == name && row.value.epoch == env.now)
  {
    KillKeepsKeys(s, env);
    var db := KillZombies(s, env);
    hide KillZombies, Ok, Updated, ByEmail;
    var found := Select(db, email, env);
    if found.Some? {
      Replaced(db, ByEmail(db.accounts, email).value, found.value.(name := name));
    } else {
      var a := Account(-1, name, email, env.password, env.token, false, env.code, env.now);
      if Insert(db, a).Some? { LastByEmail(db.accounts, a.(id := db.nextAccount)); }
    }
  }

  // ------------------------------------------------------------- clean-ups

  // In milliseconds.
  const TWO_DAYS := 2 * 24 * 60 * 60 * 1000

  // Every hundredth addition deletes the accounts that were not activated and are too old.
  predicate IsCleanUp(s: State, request: Request, env: Env) {
    request.AddAccount? && (s.accountsCount == 0 || s.accountsCount % 100 == 0) && env.kills
  }

  predicate Sweeps(s: State, request: Request, env: Env, a: Account) {
    IsCleanUp(s, request, env) && !a.activated && a.epoch < env.now - TWO_DAYS
  }

  // Everything that a letter told and that authorizes is the same.
  predicate SameRow(a: Account, b: Account) {
    a.id == b.id && a.email == b.email && a.code == b.code && a.password == b.password && a.token == b.token
  }

  // A row after a request: gone, or the same, as old as before or written just now.
  ghost predicate Follows(a: Account, r: Option<Account>, swept: bool, now: int) {
    && (r.None? <==> swept)
    && (r.Some? ==>
          && SameRow(a, r.value) && (a.activated ==> r.value.activated)
          && (r.value.epoch == a.epoch || r.value.epoch == now))
  }

  lemma UpdateFollows(db: Db, row: Account, a: Account, id: int, now: int)
    requires Ok(db) && row in db.accounts && ById(db.accounts, id).Some?
    requires SameRow(row, a) && (row.activated ==> a.activated) && a.epoch == now
    ensures Follows(ById(db.accounts, id).value, ById(Updated(db.accounts, a), id), false, now)
  {
    var next := db.nextAccount;
    Found(db.accounts, row, next);
    forall i | 0 <= i < |db.accounts| && db.accounts[i].id == a.id ensures db.accounts[i].email == a.email {
      Found(db.accounts, db.accounts[i], next);
    }
    UpdateKeeps(db.accounts, a, next);
  }

  lemma AbsentFromLess(rows: seq<Account>, fewer: seq<Account>, id: int)
    requires ById(rows, id).None? && forall a :: a in fewer ==> a in rows
    ensures ById(fewer, id).None?
  {
    if ById(fewer, id).Some? { IsFound(rows, ById(fewer, id).value); }
  }

  lemma {:induction false} IsFound(rows: seq<Account>, a: Account)
    requires a in rows
    ensures ById(rows, a.id).Some?
    decreases |rows|
  {
    if rows[0].id != a.id { IsFound(rows[1..], a); }
  }

  lemma KillFollows(s: State, env: Env, id: int)
    requires Ok(s.db)
    ensures var r := ById(KillZombies(s, env).accounts, id);
            match ById(s.db.accounts, id)
            case None => r.None?
            case Some(a) =>
              if Sweeps(s, AddAccount("", ""), env, a) then r.None? else r == Some(a)
  {
    var rows, cutoff, next := s.db.accounts, env.now - ZOMBIE_LIFE_TIME, s.db.nextAccount;
    ZombiesKeep(rows, cutoff, next);
    var left := WithoutZombies(rows, cutoff);
    if ById(rows, id).None? {
      AbsentFromLess(rows, left, id);
    } else {
      var a := ById(rows, id).value;
      KilledIff(rows, cutoff, next, a);
      if a in left {
        Found(left, a, next);
      } else if ById(left, id).Some? {
        Found(rows, ById(left, id).value, next);
        assert false;
      }
    }
    hide Keys, WithoutZombies;
  }

  lemma AddFollows(s: State, email: string, name: string, env: Env, id: int)
    requires Ok(s.db) && ById(s.db.accounts, id).Some?
    ensures var a := ById(s.db.accounts, id).value;
            var r := ById(Add(s, email, name, env).0.db.accounts, id);
            Follows(a, r, Sweeps(s, AddAccount(email, name), env, a), env.now)
  {
    KillKeepsKeys(s, env);
    KillFollows(s, env, id);
    var db := KillZombies(s, env);
    hide KillZombies, Ok, Updated, ByEmail;
    var a := ById(s.db.accounts, id).value;
    if ById(db.accounts, id).None? {
      StaysAbsent(db, email, name, env, id, s);
    } else {
      var found := Select(db, email, env);
      if found.Some? {
        UpdateFollows(db, ByEmail(db.accounts, email).value, found.value.(name := name), id, env.now);
      } else {
        var b := Account(-1, name, email, env.password, env.token, false, env.code, env.now);
        ByIdOfMore(db.accounts, b.(id := db.nextAccount), id);
      }
    }
  }

  lemma {:induction false} UpdateAddsNone(rows: seq<Account>, a: Account, id: int)
    requires ById(rows, id).None?
    ensures ById(Updated(rows, a), id).None?
    decreases |rows|
  {
    if rows != [] { UpdateAddsNone(rows[1..], a, id); }
  }

  lemma {:induction false} OtherAdded(rows: seq<Account>, a: Account, id: int)
    requires ById(rows, id).None? && a.id != id
    ensures ById(rows + [a], id).None?
    decreases |rows|
  {
    if rows != [] {
      assert (rows + [a])[1..] == rows[1..] + [a];
      OtherAdded(rows[1..], a, id);
    }
  }

  // The part of an addition that comes after the clean-up brings no old id back.
  lemma StaysAbsent(db: Db, email: string, name: string, env: Env, id: int, s: State)
    requires ById(db.accounts, id).None? && id < db.nextAccount && db == KillZombies(s, env)
    ensures ById(Add(s, email, name, env).0.db.accounts, id).None?
  {
    hide KillZombies, ByEmail;
    var found := Select(db, email, env);
    if found.Some? {
      UpdateAddsNone(db.accounts, found.value.(name := name), id);
    } else {
      var b := Account(-1, name, email, env.password, env.token, false, env.code, env.now);
      OtherAdded(db.accounts, b.(id := db.nextAccount), id);
    }
  }

  // One request, whatever it is and whatever fails: an account goes exactly when the request
  // is a clean-up that finds it too old and not activated; otherwise its row keeps its
  // email, its code and its secrets.
  lemma GoesIffSwept(s: State, request: Request, env: Env, id: int)
    requires Ok(s.db) && ById(s.db.accounts, id).Some?
    ensures var a := ById(s.db.accounts, id).value;
            Follows(a, ById(Serve(s, request, env).0.db.accounts, id), Sweeps(s, request, env, a), env.now)
  {
    hide Ok, Updated, ByEmail, Add;
    match request {
      case AddAccount(email, name) => AddFollows(s, email, name, env, id);
      case Activate(email, code) =>
        var found := Select(s.db, email, env);
        if found.Some? {
          UpdateFollows(s.db, ByEmail(s.db.accounts, email).value, found.value.(activated := true), id, env.now);
        }
      case _ =>
    }
  }

  // Ids that are gone are never used again.
  lemma NeverReturns(s: State, request: Request, env: Env, id: int)
    requires Ok(s.db) && ById(s.db.accounts, id).None? && id < s.db.nextAccount
    ensures var db := Serve(s, request, env).0.db; ById(db.accounts, id).None? && id < db.nextAccount
  {
    ServeIsSafe(s, request, env);
    hide Ok, Updated, ByEmail, Add, KillZombies;
    match request {
      case AddAccount(email, name) =>
        KillKeepsKeys(s, env);
        KillFollows(s, env, id);
        StaysAbsent(KillZombies(s, env), email, name, env, id, s);
      case Activate(email, code) =>
        var found := Select(s.db, email, env);
        if found.Some? { UpdateAddsNone(s.db.accounts, found.value.(activated := true), id); }
      case _ =>
    }
  }

  // ------------------------------------------------------------------- runs

  // How many additions there have been, successful or not: the number that decides which
  // ones are clean-ups.
  function Additions(requests: seq<(Request, Env)>): nat {
    if requests == [] then 0
    else Additions(requests[..|requests| - 1]) + if requests[|requests| - 1].0.AddAccount? then 1 else 0
  }

  lemma {:induction false} AdditionsAreCounted(requests: seq<(Request, Env)>)
    ensures Run(requests).accountsCount == Additions(requests)
    decreases |requests|
  {
    if requests != [] { AdditionsAreCounted(requests[..|requests| - 1]); }
  }

  // The i-th request after `before` is a clean-up that takes the account.
  predicate SweptAt(before: seq<(Request, Env)>, after: seq<(Request, Env)>, i: nat, id: int) {
    i < |after|
    && var s := Run(before + after[..i]);
       && ById(s.db.accounts, id).Some?
       && Sweeps(s, after[i].0, after[i].1, ById(s.db.accounts, id).value)
  }

  predicate Swept(before: seq<(Request, Env)>, after: seq<(Request, Env)>, id: int) {
    exists i: nat :: i < |after| && SweptAt(before, after, i, id)
  }

  lemma SweptNext(before: seq<(Request, Env)>, after: seq<(Request, Env)>, r: (Request, Env), id: int)
    ensures Swept(before, after + [r], id) <==>
            Swept(before, after, id) || SweptAt(before, after + [r], |after|, id)
  {
    forall i: nat | i < |after| ensures SweptAt(before, after + [r], i, id) == SweptAt(before, after, i, id) {
      assert (after + [r])[..i] == after[..i] && (after + [r])[i] == after[i];
      hide Run;
    }
    hide SweptAt;
  }

  // Over every run: an account is gone exactly when a clean-up has taken it; until then its
  // row says what it said, and after that no request brings it back.
  lemma {:induction false} GoneIffSwept(before: seq<(Request, Env)>, after: seq<(Request, Env)>, id: int)
    requires ById(Run(before).db.accounts, id).Some?
    ensures var r := ById(Run(before + after).db.accounts, id);
            && (r.None? <==> Swept(before, after, id))
            && (r.Some? ==> SameRow(ById(Run(before).db.accounts, id).value, r.value))
    ensures id < Run(before + after).db.nextAccount
    decreases |after|
  {
    hide Run, Serve, Ok, Swept, Sweeps;
    if after == [] {
      assert before + after == before;
      NoneSwept(before, id);
      RunIsOk(before);
      BelowNext(Run(before).db, id);
    } else {
      var last := |after| - 1;
      var now := before + after[..last];
      GoneIffSwept(before, after[..last], id);
      assert now + [after[last]] == before + after && after[..last] + [after[last]] == after;
      RunNext(now, after[last]);
      RunIsOk(now);
      SweptNext(before, after[..last], after[last], id);
      if ById(Run(now).db.accounts, id).Some? {
        GoesIffSwept(Run(now), after[last].0, after[last].1, id);
        ServeIsSafe(Run(now), after[last].0, after[last].1);
      } else {
        NeverReturns(Run(now), after[last].0, after[last].1, id);
      }
    }
  }

  lemma NoneSwept(before: seq<(Request, Env)>, id: int)
    ensures !Swept(before, [], id)
  {
  }

  lemma BelowNext(db: Db, id: int)
    requires Ok(db) && ById(db.accounts, id).Some?
    ensures id < db.nextAccount
  {
  }

  // -------------------------------------------------------------- activation

  // The account that a mail speaks of.
  function MailedId(s: State, email: string, name: string, env: Env): int {
    match ByEmail(Add(s, email, name, env).0.db.accounts, email)
    case None => -1
    case Some(a) => a.id
  }

  // The account of a letter is in the tables, and is activated or was written since then.
  ghost predicate Registered(rows: seq<Account>, id: int, letter: Letter, since: int) {
    ById(rows, id).Some?
    && var a := ById(rows, id).value;
       && a.email == letter.to && a.code == letter.code && a.password == letter.password
       && (a.epoch >= since || a.activated)
  }

  lemma RegisteredWhenMailed(s: State, email: string, name: string, env: Env)
    requires Ok(s.db) && Add(s, email, name, env).1 == SUCCESS
    ensures Letters(s, email, name, env) != []
    ensures Registered(Add(s, email, name, env).0.db.accounts, MailedId(s, email, name, env),
                       Letters(s, email, name, env)[0], env.now)
  {
    MailedIff(s, email, name, env);
    AddIsSafe(s, email, name, env);
    var t := Add(s, email, name, env).0;
    hide Add, Letters;
    Found(t.db.accounts, ByEmail(t.db.accounts, email).value, t.db.nextAccount);
  }

  predicate IsActivated(rows: seq<Account>, email: string) {
    ByEmail(rows, email).Some? && ByEmail(rows, email).value.activated
  }

  // What activating an account does whose row is there.
  lemma ActivationOf(db: Db, id: int, code: string, env: Env)
    requires Ok(db) && ById(db.accounts, id).Some? && env.selects && env.writes
    ensures var a := ById(db.accounts, id).value;
            var (db', reply) := ActivateAccount(db, a.email, code, env);
            && (reply == SUCCESS <==> EqualsIgnoringCase(a.code, code))
            && (reply == SUCCESS ==> IsActivated(db'.accounts, a.email) && Present(db'.accounts, id))
  {
    var row := ById(db.accounts, id).value;
    Found(db.accounts, row, db.nextAccount);
    Replaced(db, row, row.(epoch := env.now, activated := true));
    hide Ok, Updated, EqualsIgnoringCase;
  }

  // The fate of a mailed code, over every run, whatever else is requested and whatever
  // fails: entering it activates the account that the mail spoke of if and only if no
  // clean-up has taken that account, however late it is; and until then it is the only code
  // that does. Letters that differ in case are the same code.
  lemma CodeWorksUntilSwept(
      before: seq<(Request, Env)>, email: string, name: string, env: Env,
      after: seq<(Request, Env)>, code: string, later: Env)
    requires Add(Run(before), email, name, env).1 == SUCCESS
    requires later.selects && later.writes
    ensures Letters(Run(before), email, name, env) != []
    ensures var letter, id := Letters(Run(before), email, name, env)[0], MailedId(Run(before), email, name, env);
            var added := before + [(AddAccount(email, name), env)];
            var s := Run(added + after);
            var swept := Swept(added, after, id);
            && letter.to == email
            && (Present(Serve(s, Activate(email, letter.code), later).0.db.accounts, id) <==> !swept)
            && (!swept ==>
                  var (t, reply) := Serve(s, Activate(email, code), later);
                  && (reply == SUCCESS <==> EqualsIgnoringCase(letter.code, code))
                  && (reply == SUCCESS ==> IsActivated(t.db.accounts, email)))
  {
    hide Run, Add, Letters, EqualsIgnoringCase, Ok, Swept;
    RunIsOk(before);
    MailedIff(Run(before), email, name, env);
    RegisteredWhenMailed(Run(before), email, name, env);
    var letter, id := Letters(Run(before), email, name, env)[0], MailedId(Run(before), email, name, env);
    var added := before + [(AddAccount(email, name), env)];
    RunNext(before, (AddAccount(email, name), env));
    GoneIffSwept(added, after, id);
    var s := Run(added + after);
    RunIsOk(added + after);
    SameCode(letter.code);
    if Swept(added, after, id) {
      NeverReturns(s, Activate(email, letter.code), later, id);
    } else {
      ActivationOf(s.db, id, code, later);
      ActivationOf(s.db, id, letter.code, later);
    }
    hide ActivateAccount;
  }

  lemma SameCode(code: string)
    ensures EqualsIgnoringCase(code, code)
  {
  }

  // --------------------------------------------------------------- two days

  ghost predicate WithinTwoDays(requests: seq<(Request, Env)>, since: int) {
    forall i :: 0 <= i < |requests| ==> since <= requests[i].1.now <= since + TWO_DAYS
  }

  lemma {:induction false} StaysRegistered(
      before: seq<(Request, Env)>, after: seq<(Request, Env)>, id: int, letter: Letter, since: int)
    requires Registered(Run(before).db.accounts, id, letter, since) && WithinTwoDays(after, since)
    ensures Registered(Run(before + after).db.accounts, id, letter, since) && !Swept(before, after, id)
    decreases |after|
  {
    hide Run, Serve, Ok, Swept;
    if after == [] {
      assert before + after == before;
      NoneSwept(before, id);
    } else {
      var last := |after| - 1;
      var now := before + after[..last];
      StaysRegistered(before, after[..last], id, letter, since);
      assert now + [after[last]] == before + after && after[..last] + [after[last]] == after;
      RunNext(now, after[last]);
      RunIsOk(now);
      SweptNext(before, after[..last], after[last], id);
      GoesIffSwept(Run(now), after[last].0, after[last].1, id);
    }
  }

  // The first half of what the mail promises follows: for two days the code works.
  lemma CodeWorksForTwoDays(
      before: seq<(Request, Env)>, email: string, name: string, env: Env,
      after: seq<(Request, Env)>, code: string, later: Env)
    requires Add(Run(before), email, name, env).1 == SUCCESS
    requires WithinTwoDays(after, env.now) && later.selects && later.writes
    ensures Letters(Run(before), email, name, env) != []
    ensures var letter := Letters(Run(before), email, name, env)[0];
            var s := Run(before + [(AddAccount(email, name), env)] + after);
            var (t, reply) := Serve(s, Activate(letter.to, code), later);
            && letter.to == email
            && (reply == SUCCESS <==> EqualsIgnoringCase(letter.code, code))
            && (reply == SUCCESS ==> IsActivated(t.db.accounts, email))
  {
    hide Run, Add, Letters, Registered, EqualsIgnoringCase, Ok, Serve, Swept;
    RunIsOk(before);
    RegisteredWhenMailed(Run(before), email, name, env);
    var letter, id := Letters(Run(before), email, name, env)[0], MailedId(Run(before), email, name, env);
    var added := before + [(AddAccount(email, name), env)];
    AddedBy(before, email, name, env);
    StaysRegistered(added, after, id, letter, env.now);
    CodeWorksUntilSwept(before, email, name, env, after, code, later);
  }

  lemma AddedBy(before: seq<(Request, Env)>, email: string, name: string, env: Env)
    ensures Run(before + [(AddAccount(email, name), env)]) == Add(Run(before), email, name, env).0
  {
    RunNext(before, (AddAccount(email, name), env));
    hide Run, Add;
  }

  // The second half does not: nothing destroys a code when its two days are over. Twenty
  // days after the very first addition its code is still accepted.
  lemma LateCodeWorks(code: string, password: string, token: string)
    ensures var env := Env(0, true, true, true, true, password, token, code);
            var later := Env(10 * ZOMBIE_LIFE_TIME, true, true, true, true, "", "", "");
            Serve(Run([(AddAccount("a", "n"), env)]), Activate("a", code), later).1 == SUCCESS
  {
    var env := Env(0, true, true, true, true, password, token, code);
    var first := (AddAccount("a", "n"), env);
    SameCode(code);
    hide EqualsIgnoringCase;
    AddedBy([], "a", "n", env);
    assert [] + [first] == [first];
    assert Run([]) == State(EmptyDb(), 0);
    var a := Account(1, "n", "a", password, token, false, code, 0);
    assert Add(State(EmptyDb(), 0), "a", "n", env).0.db.accounts == [a];
    assert ByEmail([a], "a") == Some(a);
  }
}
