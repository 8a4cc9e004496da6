// Click-to-call: which account, SIP address and caller an incoming request is for, and
// whether it is admitted. The call then goes out to an address that the account itself
// has registered.

module ClickToCall {
  import opened Common
  import opened AccountStore
  import B = CallBridge

  // What the outside contributes: whether there is a database, which look-ups work, the
  // host in the text of a SIP address if it has one, and the callers that are configured.
  datatype World = World(
    hasDb: bool, findsAccount: bool, findsAddress: bool, findsAny: bool, findsCaller: bool,
    decode: string -> string, host: string -> Option<string>, configured: string -> Option<Caller>)

  datatype Admission = Refused(code: nat) | Admitted(account: Account, sip: Sip, caller: Caller)

  const SERVER_ERROR := 500

  // SELECT ... WHERE account_id = ? AND address = ?, the first row
  function SipOf(rows: seq<Sip>, accountId: int, address: string): Option<Sip> {
    if rows == [] then None
    else if rows[0].accountId == accountId && rows[0].address == address then Some(rows[0])
    else SipOf(rows[1..], accountId, address)
  }

  // SELECT ... WHERE account_id = ?, the first row
  function AnySipOf(rows: seq<Sip>, accountId: int): Option<Sip> {
    if rows == [] then None
    else if rows[0].accountId == accountId then Some(rows[0])
    else AnySipOf(rows[1..], accountId)
  }

  // SELECT ... WHERE account_sip_id = ?, the first row
  function CallerOf(rows: seq<Caller>, sipId: int): Option<Caller> {
    if rows == [] then None
    else if rows[0].sipId == sipId then Some(rows[0])
    else CallerOf(rows[1..], sipId)
  }

  // The address that was asked for if it is the account's, or else the account's first.
  function ChosenSip(db: Db, accountId: int, address: string, w: World): Option<Sip> {
    var asked := if w.findsAddress then SipOf(db.sips, accountId, address) else None;
    if asked.Some? then asked else if w.findsAny then AnySipOf(db.sips, accountId) else None
  }

  function ChosenCaller(db: Db, sipId: int, host: string, w: World): Option<Caller> {
    var stored := if w.findsCaller then CallerOf(db.callers, sipId) else None;
    if stored.Some? then stored else w.configured(host)
  }

  function Admit(db: Db, email64: string, address: string, w: World): Admission {
    if !w.hasDb then Refused(SERVER_ERROR)
    else
      match if w.findsAccount then ByEmail(db.accounts, w.decode(email64)) else None
      case None => Refused(NOT_FOUND)
      case Some(account) =>
        if !account.activated then Refused(UNAUTHORIZED)
        else
          match ChosenSip(db, account.id, address, w)
          case None => Refused(NOT_FOUND)
          case Some(sip) =>
            match w.host(w.decode(sip.address))
            case None => Refused(INVALID_DATA_TYPE)
            case Some(host) =>
              match ChosenCaller(db, sip.id, host, w)
              case None => Refused(NOT_FOUND)
              case Some(caller) => Admitted(account, sip, caller)
  }

  // The new-call event that the request becomes.
  function Invite(a: Admission, w: World, left: nat, right: nat, audio: bool, video: bool, codecs: B.Codecs): B.Event {
    match a
    case Refused(code) => B.NewCall(left, right, Some(code), None, audio, video, codecs)
    case Admitted(_, sip, _) => B.NewCall(left, right, None, Some(w.decode(sip.address)), audio, video, codecs)
  }

  // ---------------------------------------------------------------- look-ups

  predicate HasSip(db: Db, accountId: int, address: string) {
    exists i :: 0 <= i < |db.sips| && db.sips[i].accountId == accountId && db.sips[i].address == address
  }

  lemma {:induction false} SipOfFinds(rows: seq<Sip>, accountId: int, address: string)
    ensures SipOf(rows, accountId, address).Some? <==>
            exists i :: 0 <= i < |rows| && rows[i].accountId == accountId && rows[i].address == address
    ensures var r := SipOf(rows, accountId, address);
            r.Some? ==> r.value in rows && r.value.accountId == accountId && r.value.address == address
    decreases |rows|
  {
    if rows != [] && !(rows[0].accountId == accountId && rows[0].address == address) {
      SipOfFinds(rows[1..], accountId, address);
      forall i | 0 <= i < |rows| && rows[i].accountId == accountId && rows[i].address == address
        ensures rows[i] == rows[1..][i - 1] {}
    }
  }

  lemma {:induction false} AnySipOfFinds(rows: seq<Sip>, accountId: int)
    ensures AnySipOf(rows, accountId).Some? <==> exists i :: 0 <= i < |rows| && rows[i].accountId == accountId
    ensures var r := AnySipOf(rows, accountId); r.Some? ==> r.value in rows && r.value.accountId == accountId
    decreases |rows|
  {
    if rows != [] && rows[0].accountId != accountId {
      AnySipOfFinds(rows[1..], accountId);
      forall i | 0 <= i < |rows| && rows[i].accountId == accountId ensures rows[i] == rows[1..][i - 1] {}
    }
  }

  // An admitted request is for an activated account with that email, and the address is one
  // of its own: the one asked for, if that can be found.
  lemma AdmittedIsOwn(db: Db, email64: string, address: string, w: World)
    requires Admit(db, email64, address, w).Admitted?
    ensures var a := Admit(db, email64, address, w);
            && a.account in db.accounts && a.account.activated && a.account.email == w.decode(email64)
            && a.sip in db.sips && a.sip.accountId == a.account.id
            && (w.findsAddress && HasSip(db, a.account.id, address) ==> a.sip.address == address)
  {
    var account := ByEmail(db.accounts, w.decode(email64)).value;
    SipOfFinds(db.sips, account.id, address);
    AnySipOfFinds(db.sips, account.id);
  }

  // The account that an email stands for: the first row with it.
  predicate IsAccountOf(rows: seq<Account>, k: nat, email: string) {
    k < |rows| && rows[k].email == email && forall j :: 0 <= j < k ==> rows[j].email != email
  }

  // The SIP row that a request for an address of an account leads to: the first one with
  // that address if the account has it, and the account's first one otherwise.
  predicate IsTarget(db: Db, i: nat, accountId: int, address: string, w: World) {
    && i < |db.sips| && db.sips[i].accountId == accountId
    && if w.findsAddress && HasSip(db, accountId, address) then
         && db.sips[i].address == address
         && forall j :: 0 <= j < i ==> !(db.sips[j].accountId == accountId && db.sips[j].address == address)
       else w.findsAny && forall j :: 0 <= j < i ==> db.sips[j].accountId != accountId
  }

  // Its address can be read, and somebody is set up to call it.
  predicate IsCallable(db: Db, sip: Sip, w: World) {
    var host := w.host(w.decode(sip.address));
    && host.Some?
    && (w.configured(host.value).Some? ||
        (w.findsCaller && exists c :: 0 <= c < |db.callers| && db.callers[c].sipId == sip.id))
  }

  predicate LeadsTo(db: Db, k: nat, i: nat, email64: string, address: string, w: World) {
    && w.hasDb && w.findsAccount
    && IsAccountOf(db.accounts, k, w.decode(email64)) && db.accounts[k].activated
    && IsTarget(db, i, db.accounts[k].id, address, w) && IsCallable(db, db.sips[i], w)
  }

  // A request is admitted if and only if the tables hold an activated account and a SIP row
  // that it leads to, and then it is admitted for these.
  lemma AdmittedIff(db: Db, email64: string, address: string, w: World)
    ensures Admit(db, email64, address, w).Admitted? <==>
            exists k: nat, i: nat :: LeadsTo(db, k, i, email64, address, w)
    ensures forall k: nat, i: nat :: LeadsTo(db, k, i, email64, address, w) ==>
              var a := Admit(db, email64, address, w);
              a.Admitted? && a.account == db.accounts[k] && a.sip == db.sips[i]
  {
    forall k: nat, i: nat | LeadsTo(db, k, i, email64, address, w)
      ensures var a := Admit(db, email64, address, w);
              a.Admitted? && a.account == db.accounts[k] && a.sip == db.sips[i]
    {
      IsAdmitted(db, k, i, email64, address, w);
    }
    if Admit(db, email64, address, w).Admitted? {
      var k, i := AdmittedLeads(db, email64, address, w);
    }
    hide Admit, LeadsTo;
  }

  lemma IsAdmitted(db: Db, k: nat, i: nat, email64: string, address: string, w: World)
    requires LeadsTo(db, k, i, email64, address, w)
    ensures var a := Admit(db, email64, address, w);
            a.Admitted? && a.account == db.accounts[k] && a.sip == db.sips[i]
  {
    FirstAccount(db.accounts, k, w.decode(email64));
    TargetIsChosen(db, i, db.accounts[k].id, address, w);
    CallerOfFinds(db.callers, db.sips[i].id);
    hide ByEmail, ChosenSip, CallerOf, IsAccountOf, IsTarget;
  }

  lemma AdmittedLeads(db: Db, email64: string, address: string, w: World) returns (k: nat, i: nat)
    requires Admit(db, email64, address, w).Admitted?
    ensures LeadsTo(db, k, i, email64, address, w)
  {
    k := AccountAt(db.accounts, w.decode(email64));
    i := TargetAt(db, db.accounts[k].id, address, w);
    CallerOfFinds(db.callers, db.sips[i].id);
    hide ByEmail, ChosenSip, CallerOf, IsAccountOf, IsTarget;
  }

  lemma {:induction false} FirstAccount(rows: seq<Account>, k: nat, email: string)
    requires IsAccountOf(rows, k, email)
    ensures ByEmail(rows, email) == Some(rows[k])
    decreases k
  {
    if k > 0 {
      assert rows[0].email != email;
      FirstAccount(rows[1..], k - 1, email);
    }
  }

  lemma {:induction false} AccountAt(rows: seq<Account>, email: string) returns (k: nat)
    requires ByEmail(rows, email).Some?
    ensures IsAccountOf(rows, k, email) && rows[k] == ByEmail(rows, email).value
    decreases |rows|
  {
    k := 0;
    if rows[0].email != email {
      var n := AccountAt(rows[1..], email);
      k := n + 1;
    }
  }

  lemma TargetIsChosen(db: Db, i: nat, accountId: int, address: string, w: World)
    requires IsTarget(db, i, accountId, address, w)
    ensures ChosenSip(db, accountId, address, w) == Some(db.sips[i])
  {
    SipOfFinds(db.sips, accountId, address);
    if w.findsAddress && HasSip(db, accountId, address) {
      FirstSip(db.sips, i, accountId, address);
    } else {
      FirstSipOfAny(db.sips, i, accountId);
    }
  }

  lemma TargetAt(db: Db, accountId: int, address: string, w: World) returns (i: nat)
    requires ChosenSip(db, accountId, address, w).Some?
    ensures IsTarget(db, i, accountId, address, w) && db.sips[i] == ChosenSip(db, accountId, address, w).value
  {
    SipOfFinds(db.sips, accountId, address);
    if w.findsAddress && HasSip(db, accountId, address) {
      i := SipAt(db.sips, accountId, address);
    } else {
      i := AnySipAt(db.sips, accountId);
    }
  }

  lemma {:induction false} FirstSip(rows: seq<Sip>, i: nat, accountId: int, address: string)
    requires i < |rows| && rows[i].accountId == accountId && rows[i].address == address
    requires forall j :: 0 <= j < i ==> !(rows[j].accountId == accountId && rows[j].address == address)
    ensures SipOf(rows, accountId, address) == Some(rows[i])
    decreases i
  {
    if i > 0 {
      assert !(rows[0].accountId == accountId && rows[0].address == address);
      FirstSip(rows[1..], i - 1, accountId, address);
    }
  }

  lemma {:induction false} SipAt(rows: seq<Sip>, accountId: int, address: string) returns (i: nat)
    requires SipOf(rows, accountId, address).Some?
    ensures i < |rows| && rows[i] == SipOf(rows, accountId, address).value
    ensures rows[i].accountId == accountId && rows[i].address == address
    ensures forall j :: 0 <= j < i ==> !(rows[j].accountId == accountId && rows[j].address == address)
    decreases |rows|
  {
    i := 0;
    if !(rows[0].accountId == accountId && rows[0].address == address) {
      var n := SipAt(rows[1..], accountId, address);
      i := n + 1;
    }
  }

  lemma {:induction false} FirstSipOfAny(rows: seq<Sip>, i: nat, accountId: int)
    requires i < |rows| && rows[i].accountId == accountId
    requires forall j :: 0 <= j < i ==> rows[j].accountId != accountId
    ensures AnySipOf(rows, accountId) == Some(rows[i])
    decreases i
  {
    if i > 0 {
      assert rows[0].accountId != accountId;
      FirstSipOfAny(rows[1..], i - 1, accountId);
    }
  }

  lemma {:induction false} AnySipAt(rows: seq<Sip>, accountId: int) returns (i: nat)
    requires AnySipOf(rows, accountId).Some?
    ensures i < |rows| && rows[i] == AnySipOf(rows, accountId).value && rows[i].accountId == accountId
    ensures forall j :: 0 <= j < i ==> rows[j].accountId != accountId
    decreases |rows|
  {
    i := 0;
    if rows[0].accountId != accountId {
      var n := AnySipAt(rows[1..], accountId);
      i := n + 1;
    }
  }

  lemma {:induction false} CallerOfFinds(rows: seq<Caller>, sipId: int)
    ensures CallerOf(rows, sipId).Some? <==> exists c :: 0 <= c < |rows| && rows[c].sipId == sipId
    decreases |rows|
  {
    if rows != [] && rows[0].sipId != sipId {
      CallerOfFinds(rows[1..], sipId);
      forall c | 0 <= c < |rows| && rows[c].sipId == sipId ensures rows[c] == rows[1..][c - 1] {}
    }
  }

  // The first stored caller for a SIP row.
  predicate IsCallerOf(rows: seq<Caller>, c: nat, sipId: int) {
    c < |rows| && rows[c].sipId == sipId && forall j :: 0 <= j < c ==> rows[j].sipId != sipId
  }

  lemma {:induction false} FirstCaller(rows: seq<Caller>, c: nat, sipId: int)
    requires IsCallerOf(rows, c, sipId)
    ensures CallerOf(rows, sipId) == Some(rows[c])
    decreases c
  {
    if c > 0 {
      assert rows[0].sipId != sipId;
      FirstCaller(rows[1..], c - 1, sipId);
    }
  }

  // What a request that leads to an account and one of its SIP rows comes to: the address
  // has to be readable, and then a stored caller goes before a configured one.
  lemma TargetedIs(db: Db, k: nat, i: nat, email64: string, address: string, w: World)
    requires w.hasDb && w.findsAccount && IsAccountOf(db.accounts, k, w.decode(email64)) && db.accounts[k].activated
    requires IsTarget(db, i, db.accounts[k].id, address, w)
    ensures var a, host := Admit(db, email64, address, w), w.host(w.decode(db.sips[i].address));
            var stored := w.findsCaller && exists c: nat :: IsCallerOf(db.callers, c, db.sips[i].id);
            if host.None? then a == Refused(483)
            else
              && (!stored && w.configured(host.value).None? ==> a == Refused(404))
              && (!stored && w.configured(host.value).Some? ==>
                    a == Admitted(db.accounts[k], db.sips[i], w.configured(host.value).value))
              && (forall c: nat :: w.findsCaller && IsCallerOf(db.callers, c, db.sips[i].id) ==>
                    a == Admitted(db.accounts[k], db.sips[i], db.callers[c]))
  {
    FirstAccount(db.accounts, k, w.decode(email64));
    TargetIsChosen(db, i, db.accounts[k].id, address, w);
    forall c: nat | IsCallerOf(db.callers, c, db.sips[i].id)
      ensures CallerOf(db.callers, db.sips[i].id) == Some(db.callers[c])
    {
      FirstCaller(db.callers, c, db.sips[i].id);
    }
    if CallerOf(db.callers, db.sips[i].id).Some? { var c := CallerAt(db.callers, db.sips[i].id); }
    hide ByEmail, ChosenSip, CallerOf, IsAccountOf, IsTarget, IsCallerOf;
  }

  lemma {:induction false} CallerAt(rows: seq<Caller>, sipId: int) returns (c: nat)
    requires CallerOf(rows, sipId).Some?
    ensures IsCallerOf(rows, c, sipId)
    decreases |rows|
  {
    c := 0;
    if rows[0].sipId != sipId {
      var n := CallerAt(rows[1..], sipId);
      c := n + 1;
    }
  }

  // The codes of the other refusals, in the order in which they are looked for.
  lemma RefusalIs(db: Db, email64: string, address: string, w: World)
    ensures var a := Admit(db, email64, address, w);
            && (!w.hasDb ==> a == Refused(500))
            && (w.hasDb && (!w.findsAccount || !exists k: nat :: IsAccountOf(db.accounts, k, w.decode(email64))) ==>
                  a == Refused(404))
            && (forall k: nat :: w.hasDb && w.findsAccount && IsAccountOf(db.accounts, k, w.decode(email64)) ==>
                  && (!db.accounts[k].activated ==> a == Refused(403))
                  && (db.accounts[k].activated && (forall i: nat :: !IsTarget(db, i, db.accounts[k].id, address, w)) ==>
                        a == Refused(404)))
  {
    forall k: nat | IsAccountOf(db.accounts, k, w.decode(email64))
      ensures ByEmail(db.accounts, w.decode(email64)) == Some(db.accounts[k])
    {
      FirstAccount(db.accounts, k, w.decode(email64));
    }
    var account := ByEmail(db.accounts, w.decode(email64));
    if account.Some? {
      var k := AccountAt(db.accounts, w.decode(email64));
      if ChosenSip(db, account.value.id, address, w).Some? { var i := TargetAt(db, account.value.id, address, w); }
    }
    hide ByEmail, ChosenSip, CallerOf, IsAccountOf, IsTarget;
  }

  // --------------------------------------------------- where addresses come from

  // The request that stored a SIP row came with the token of the account it belongs to.
  ghost predicate StoredBy(requests: seq<(Request, Env)>, i: nat, db: Db, sip: Sip) {
    && i < |requests| && requests[i].0.AddSip? && requests[i].0.address == sip.address
    && ById(db.accounts, sip.accountId).Some?
    && var owner := ById(db.accounts, sip.accountId).value;
       owner.activated && requests[i].0.email == owner.email && requests[i].0.token == owner.token
  }

  ghost predicate HasOrigin(requests: seq<(Request, Env)>, db: Db, sip: Sip) {
    exists i: nat :: StoredBy(requests, i, db, sip)
  }

  ghost predicate AllHaveOrigin(requests: seq<(Request, Env)>, db: Db) {
    forall sip :: sip in db.sips ==> HasOrigin(requests, db, sip)
  }

  // A row that stays keeps its origin, since its owner stays what it is.
  lemma OriginStays(requests: seq<(Request, Env)>, r: (Request, Env), db: Db, db': Db, sip: Sip)
    requires HasOrigin(requests, db, sip) && Safe(db, db')
    ensures HasOrigin(requests + [r], db', sip)
  {
    var i: nat :| StoredBy(requests, i, db, sip);
    hide Ok;
    assert Present(db.accounts, sip.accountId);
    assert (requests + [r])[i] == requests[i];
    assert StoredBy(requests + [r], i, db', sip);
  }

  // The only row that a request adds is that of an address that comes with the token.
  lemma NewSip(s: State, request: Request, env: Env, sip: Sip)
    requires Ok(s.db) && sip in Serve(s, request, env).0.db.sips && sip !in s.db.sips
    ensures StoredBy([(request, env)], 0, Serve(s, request, env).0.db, sip)
  {
    hide Updated, WithoutZombies, EqualsIgnoringCase;
    match request {
      case AddSip(email, token, address) =>
        var a := ByEmail(s.db.accounts, email).value;
        Found(s.db.accounts, a, s.db.nextAccount);
        hide Ok;
      case DeleteSip(email, token, id) => SipRowsKept(s.db.sips, id);
      case _ =>
    }
  }

  lemma OriginOfNew(requests: seq<(Request, Env)>, r: (Request, Env), db: Db, sip: Sip)
    requires StoredBy([r], 0, db, sip)
    ensures HasOrigin(requests + [r], db, sip)
  {
    assert (requests + [r])[|requests|] == r;
    assert StoredBy(requests + [r], |requests|, db, sip);
  }

  lemma {:induction false} AddressesHaveOrigin(requests: seq<(Request, Env)>)
    ensures AllHaveOrigin(requests, Run(requests).db)
    decreases |requests|
  {
    hide Serve, Ok, Safe, HasOrigin;
    if requests != [] {
      var before, r := requests[..|requests| - 1], requests[|requests| - 1];
      assert before + [r] == requests;
      AddressesHaveOrigin(before);
      RunNext(before, r);
      RunIsOk(before);
      var s, t := Run(before), Run(requests);
      ServeIsSafe(s, r.0, r.1);
      forall sip | sip in t.db.sips ensures HasOrigin(requests, t.db, sip) {
        if sip in s.db.sips {
          OriginStays(before, r, s.db, t.db, sip);
        } else {
          NewSip(s, r.0, r.1, sip);
          OriginOfNew(before, r, t.db, sip);
        }
      }
    }
  }

  // Over every run of the service, whatever fails: a click-to-call is called out to an
  // address that an earlier request registered under the email asked for, with the token of
  // that account, or to none; a refused one gets its answer and no peer.
  lemma OnlyRegisteredAddressesAreCalled(
      requests: seq<(Request, Env)>, email64: string, address: string, w: World,
      s: B.State, left: nat, right: nat, audio: bool, video: bool, codecs: B.Codecs, bypass: bool)
    ensures var a := Admit(Run(requests).db, email64, address, w);
            var t := B.OnNewCall(s, Invite(a, w, left, right, audio, video, codecs), bypass);
            if a.Refused? then t.peers == s.peers && t.log == s.log + [B.Reject(left, a.code)]
            else if audio || video then
              && t.log == s.log + [B.CallOut(right, w.decode(a.sip.address), audio, video)]
              && t.peers.Keys == s.peers.Keys + {s.nextId}
              && Registered(requests, w.decode(email64), a.account.token, a.sip.address)
            else t.peers == s.peers && t.log == s.log + [B.RejectThroughNull(left, 500)]
  {
    var db := Run(requests).db;
    AddressesHaveOrigin(requests);
    RunIsOk(requests);
    hide Run, Ok;
    var a := Admit(db, email64, address, w);
    if a.Admitted? {
      AdmittedIsOwn(db, email64, address, w);
      OwnerIs(requests, db, a.account, a.sip);
    }
  }

  ghost predicate Registered(requests: seq<(Request, Env)>, email: string, token: string, address: string) {
    exists i :: 0 <= i < |requests| && requests[i].0 == AddSip(email, token, address)
  }

  lemma OwnerIs(requests: seq<(Request, Env)>, db: Db, account: Account, sip: Sip)
    requires Ok(db) && account in db.accounts && sip in db.sips && sip.accountId == account.id
    requires AllHaveOrigin(requests, db)
    ensures Registered(requests, account.email, account.token, sip.address)
  {
    Found(db.accounts, account, db.nextAccount);
    hide Ok;
    var i: nat :| StoredBy(requests, i, db, sip);
    assert requests[i].0 == AddSip(account.email, account.token, sip.address);
  }
}
