// Whose rows a request changes. SIP rows belong to an account, and caller rows to the
// account of their SIP row; requests name them by number.

module AccountOwnership {
  import opened Common
  import opened AccountStore

  function OwnerOf(sips: seq<Sip>, sipId: int): Option<int> {
    if sips == [] then None
    else if sips[0].id == sipId then Some(sips[0].accountId)
    else OwnerOf(sips[1..], sipId)
  }

  predicate OwnsCaller(sips: seq<Sip>, c: Caller, accountId: int) {
    OwnerOf(sips, c.sipId) == Some(accountId)
  }

  // The rows that are not this account's, in their order.
  function SipsOfOthers(rows: seq<Sip>, accountId: int): seq<Sip> {
    if rows == [] then []
    else (if rows[0].accountId != accountId then [rows[0]] else []) + SipsOfOthers(rows[1..], accountId)
  }

  function CallersOfOthers(sips: seq<Sip>, rows: seq<Caller>, accountId: int): seq<Caller> {
    if rows == [] then []
    else
      (if !OwnsCaller(sips, rows[0], accountId) then [rows[0]] else []) + CallersOfOthers(sips, rows[1..], accountId)
  }

  // Nothing changes but the account's own SIP and caller rows.
  predicate LeavesOthers(db: Db, db': Db, accountId: int) {
    && db'.accounts == db.accounts
    && SipsOfOthers(db'.sips, accountId) == SipsOfOthers(db.sips, accountId)
    && CallersOfOthers(db.sips, db'.callers, accountId) == CallersOfOthers(db.sips, db.callers, accountId)
  }

  // The requests that carry an authentication token.
  predicate IsAuthorized(request: Request) {
    request.AddSip? || request.AddCaller? || request.Info? || request.DeleteSip? || request.DeleteCaller?
  }

  // What the request names is the account's own.
  predicate NamesOwn(db: Db, request: Request, accountId: int) {
    match request
    case AddCaller(_, _, c) => OwnsCaller(db.sips, c, accountId)
    case DeleteSip(_, _, id) =>
      forall i :: 0 <= i < |db.sips| && db.sips[i].id == id ==> db.sips[i].accountId == accountId
    case DeleteCaller(_, _, id) =>
      forall i :: 0 <= i < |db.callers| && db.callers[i].id == id ==> OwnsCaller(db.sips, db.callers[i], accountId)
    case _ => true
  }

  lemma {:induction false} SipsLeft(rows: seq<Sip>, id: int, accountId: int)
    ensures var before, after := SipsOfOthers(rows, accountId), SipsOfOthers(WithoutSip(rows, id), accountId);
            && |after| <= |before|
            && (after == before <==> forall i :: 0 <= i < |rows| && rows[i].id == id ==> rows[i].accountId == accountId)
            && (after != before ==> |after| < |before|)
    decreases |rows|
  {
    if rows != [] {
      SipsLeft(rows[1..], id, accountId);
      assert forall i :: 0 < i < |rows| ==> rows[i] == rows[1..][i - 1];
    }
  }

  lemma {:induction false} CallersLeft(sips: seq<Sip>, rows: seq<Caller>, id: int, accountId: int)
    ensures var before := CallersOfOthers(sips, rows, accountId);
            var after := CallersOfOthers(sips, WithoutCaller(rows, id), accountId);
            && |after| <= |before|
            && (after == before <==>
                  forall i :: 0 <= i < |rows| && rows[i].id == id ==> OwnsCaller(sips, rows[i], accountId))
            && (after != before ==> |after| < |before|)
    decreases |rows|
  {
    hide OwnsCaller;
    if rows != [] {
      CallersLeft(sips, rows[1..], id, accountId);
      assert forall i :: 0 < i < |rows| ==> rows[i] == rows[1..][i - 1];
    }
  }

  lemma {:induction false} SipAdded(rows: seq<Sip>, sip: Sip)
    ensures SipsOfOthers(rows + [sip], sip.accountId) == SipsOfOthers(rows, sip.accountId)
    decreases |rows|
  {
    if rows != [] {
      assert (rows + [sip])[1..] == rows[1..] + [sip];
      SipAdded(rows[1..], sip);
    }
  }

  lemma {:induction false} CallerAdded(sips: seq<Sip>, rows: seq<Caller>, c: Caller, accountId: int)
    ensures CallersOfOthers(sips, rows + [c], accountId) ==
            CallersOfOthers(sips, rows, accountId) + if OwnsCaller(sips, c, accountId) then [] else [c]
    decreases |rows|
  {
    hide OwnsCaller;
    if rows == [] {
      assert rows + [c] == [c] && [c][1..] == [];
    } else {
      assert (rows + [c])[1..] == rows[1..] + [c];
      CallerAdded(sips, rows[1..], c, accountId);
      var head := if !OwnsCaller(sips, rows[0], accountId) then [rows[0]] else [];
      var last := if OwnsCaller(sips, c, accountId) then [] else [c];
      var rest := CallersOfOthers(sips, rows[1..], accountId);
      assert head + (rest + last) == CallersOfOthers(sips, rows, accountId) + last;
    }
  }

  // A request that is authorized, on tables that can be written, leaves everybody else's
  // rows alone if and only if what it names by number is the account's own. The code makes
  // no such check.
  lemma LeavesOthersIff(s: State, request: Request, env: Env)
    requires IsAuthorized(request) && env.writes
    requires Authorize(s.db, request.email, request.token, env).0.Some?
    ensures var a := Authorize(s.db, request.email, request.token, env).0.value;
            LeavesOthers(s.db, Serve(s, request, env).0.db, a.id) <==> NamesOwn(s.db, request, a.id)
  {
    hide OwnsCaller, SipsOfOthers, CallersOfOthers, WithoutSip, WithoutCaller;
    var a := Authorize(s.db, request.email, request.token, env).0.value;
    hide Authorize;
    match request {
      case AddSip(_, _, address) => SipAdded(s.db.sips, Sip(s.db.nextSip, address, a.id));
      case AddCaller(_, _, c) =>
        CallerAdded(s.db.sips, s.db.callers, c.(id := s.db.nextCaller), a.id);
        SameOwner(s.db.sips, c, s.db.nextCaller, a.id);
      case DeleteSip(_, _, id) => SipsLeft(s.db.sips, id, a.id);
      case DeleteCaller(_, _, id) => CallersLeft(s.db.sips, s.db.callers, id, a.id);
      case Info(_, _) =>
    }
  }

  lemma SameOwner(sips: seq<Sip>, c: Caller, id: int, accountId: int)
    ensures OwnsCaller(sips, c.(id := id), accountId) == OwnsCaller(sips, c, accountId)
  {
  }

  // Without the token of an activated account, or without success, nothing changes.
  lemma NothingWithoutToken(s: State, request: Request, env: Env)
    requires IsAuthorized(request)
    requires Authorize(s.db, request.email, request.token, env).0.None? || Serve(s, request, env).1 != SUCCESS
    ensures Serve(s, request, env).0 == s
  {
    hide Authorize, InsertSip, InsertCaller, WithoutSip, WithoutCaller;
    AuthorizedIsSuccess(s.db, request.email, request.token, env);
  }

  lemma AuthorizedIsSuccess(db: Db, email: string, token: string, env: Env)
    ensures var r := Authorize(db, email, token, env); r.0.Some? <==> r.1 == SUCCESS
  {
    hide ByEmail;
  }

  // A run at whose end one account's SIP row has been deleted with another account's token.
  lemma OthersRowDeleted()
    ensures var env := (p: string) => Env(0, true, false, true, true, p, p, p);
            var before := [(AddAccount("a", ""), env("1")), (Activate("a", "1"), env("")),
                           (AddAccount("b", ""), env("2")), (Activate("b", "2"), env("")),
                           (AddSip("a", "1", "x"), env(""))];
            && Run(before).db.sips == [Sip(1, "x", 1)]
            && Run(before + [(DeleteSip("b", "2", 1), env(""))]).db.sips == []
  {
    hide Run, Serve;
    var env := (p: string) => Env(0, true, false, true, true, p, p, p);
    var r1, r2 := (AddAccount("a", ""), env("1")), (Activate("a", "1"), env(""));
    var r3, r4 := (AddAccount("b", ""), env("2")), (Activate("b", "2"), env(""));
    var r5, r6 := (AddSip("a", "1", "x"), env("")), (DeleteSip("b", "2", 1), env(""));
    var a, a' := Account(1, "", "a", "1", "1", false, "1", 0), Account(1, "", "a", "1", "1", true, "1", 0);
    var b, b' := Account(2, "", "b", "2", "2", false, "2", 0), Account(2, "", "b", "2", "2", true, "2", 0);
    var sip := Sip(1, "x", 1);
    RunNext([], r1);
    RunNext([r1], r2);
    RunNext([r1, r2], r3);
    RunNext([r1, r2, r3], r4);
    RunNext([r1, r2, r3, r4], r5);
    RunNext([r1, r2, r3, r4, r5], r6);
    assert [] + [r1] == [r1] && [r1] + [r2] == [r1, r2] && [r1, r2] + [r3] == [r1, r2, r3];
    assert [r1, r2, r3] + [r4] == [r1, r2, r3, r4] && [r1, r2, r3, r4] + [r5] == [r1, r2, r3, r4, r5];
    NothingYet();
    FirstTwo(env, a, a', b, b');
    LastTwo(env, a', b', sip);
  }

  lemma NothingYet()
    ensures Run([]) == State(EmptyDb(), 0)
  {
  }

  lemma FirstTwo(env: string -> Env, a: Account, a': Account, b: Account, b': Account)
    requires forall p :: env(p) == Env(0, true, false, true, true, p, p, p)
    requires a == Account(1, "", "a", "1", "1", false, "1", 0) && a' == a.(activated := true)
    requires b == Account(2, "", "b", "2", "2", false, "2", 0) && b' == b.(activated := true)
    ensures Serve(State(EmptyDb(), 0), AddAccount("a", ""), env("1")).0 == State(Db([a], [], [], 2, 1, 1), 1)
    ensures Serve(State(Db([a], [], [], 2, 1, 1), 1), Activate("a", "1"), env("")).0 ==
            State(Db([a'], [], [], 2, 1, 1), 1)
    ensures Serve(State(Db([a'], [], [], 2, 1, 1), 1), AddAccount("b", ""), env("2")).0 ==
            State(Db([a', b], [], [], 3, 1, 1), 2)
    ensures Serve(State(Db([a', b], [], [], 3, 1, 1), 2), Activate("b", "2"), env("")).0 ==
            State(Db([a', b'], [], [], 3, 1, 1), 2)
  {
  }

  lemma LastTwo(env: string -> Env, a: Account, b: Account, sip: Sip)
    requires forall p :: env(p) == Env(0, true, false, true, true, p, p, p)
    requires a == Account(1, "", "a", "1", "1", true, "1", 0) && b == Account(2, "", "b", "2", "2", true, "2", 0)
    requires sip == Sip(1, "x", 1)
    ensures Serve(State(Db([a, b], [], [], 3, 1, 1), 2), AddSip("a", "1", "x"), env("")).0 ==
            State(Db([a, b], [sip], [], 3, 2, 1), 2)
    ensures Serve(State(Db([a, b], [sip], [], 3, 2, 1), 2), DeleteSip("b", "2", 1), env("")).0 ==
            State(Db([a, b], [], [], 3, 2, 1), 2)
  {
    assert [a, b][1..] == [b] && ByEmail([b], "b") == Some(b);
    assert WithoutSip([sip], 1) == [];
  }
}
