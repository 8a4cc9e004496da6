// The click-to-call service: JSON requests are decoded and served on the account tables.

module C2CService {
  import opened Common
  import opened AccountStore
  import opened ActivationMail
  import opened JsonValue
  import JsonGrammar
  import JsonLayout
  import JsonNumber
  import JsonPrint
  import JsonReader

  // ---------------------------------------------------------------- decoding

  // What serving a request comes to.
  datatype Reply = Code(code: nat) | Thrown

  // isString, isObject and isIntegral; null counts as an object, a bool as integral.
  predicate IsString(v: Value) { v.Str? }

  predicate IsIntegral(v: Value) { v.Int? || v.UInt? || v.Bool? }

  // MP_JSON_GET: the field of an object, checked for presence and type.
  function Get(parent: Value, name: string, test: Value -> bool, couldBeNull: bool): Option<Value> {
    if !IsObject(parent) then None
    else
      var field := if parent.Null? then Null else Lookup(parent.members, Name(name));
      if field.Null? && !couldBeNull then None
      else if !test(field) then None
      else Some(field)
  }

  function GetText(parent: Value, name: string, couldBeNull: bool): (r: Option<string>)
    ensures r.Some? <==> parent.Object? && Lookup(parent.members, Name(name)).Str?
  {
    match Get(parent, name, v => IsString(v), couldBeNull)
    case None => None
    case Some(v) => Some(if v.s.Chars? then v.s.text else "")
  }

  function GetIntegral(parent: Value, name: string): Option<Value> {
    Get(parent, name, v => IsIntegral(v), true)
  }

  // asInt64, which throws on a number that does not fit.
  function AsInt64(v: Value): Option<int>
    requires IsIntegral(v)
  {
    match v
    case Int(i) => Some(i)
    case UInt(u) => if u < JsonNumber.TWO_63 then Some(u) else None
    case Bool(b) => Some(if b then 1 else 0)
  }

  // A request as far as the account is concerned, and the number that it may carry.
  datatype Decoded =
    | Complete(request: Request)
    | BadNumber(email: string, token: string)
    | Refused(code: nat)

  // `captcha` tells whether captchas are asked for.
  function Decode(root: Value, encode: string -> string, captcha: bool): Decoded {
    match GetText(root, "action", false)
    case None => Refused(INVALID_DATA_TYPE)
    case Some(action) =>
      if EqualsIgnoringCase(action, "req_account_add") then
        match (GetText(root, "name", false), GetText(root, "email", false))
        case (Some(name), Some(email)) =>
          if !captcha then Complete(AddAccount(email, name))
          else
            (match GetText(root, "captcha_value", false)
             case None => Refused(INVALID_DATA_TYPE)
             case Some(value) => Complete(Verify(email, name, value)))
        case _ => Refused(INVALID_DATA_TYPE)
      else if EqualsIgnoringCase(action, "req_account_activate") then
        match (GetText(root, "email", false), GetText(root, "code", false))
        case (Some(email), Some(code)) => Complete(Activate(email, code))
        case _ => Refused(INVALID_DATA_TYPE)
      else
        match (GetText(root, "email", true), GetText(root, "auth_token", true))
        case (Some(email), Some(token)) => DecodeAuthorized(root, action, email, token, encode)
        case _ =>
          Refused(INVALID_DATA_TYPE)
  }

  // The requests that carry an authentication token; an unknown action is refused alike.
  function DecodeAuthorized(
      root: Value, action: string, email: string, token: string, encode: string -> string): Decoded
  {
    if EqualsIgnoringCase(action, "req_account_sip_add") then
      match Get(root, "sip", v => IsObject(v), true)
      case None => Refused(INVALID_DATA_TYPE)
      case Some(sip) =>
        match GetText(sip, "address", true)
        case None => Refused(INVALID_DATA_TYPE)
        case Some(address) => Complete(AddSip(email, token, encode(address)))
    else if EqualsIgnoringCase(action, "req_account_sip_caller_add") then
      match (GetText(root, "display_name", false), GetText(root, "impu", true), GetText(root, "impi", true),
             GetText(root, "realm", true), GetIntegral(root, "account_sip_id"), GetText(root, "ha1", true))
      case (Some(displayName), Some(impu), Some(impi), Some(realm), Some(sipId), Some(ha1)) =>
        (match AsInt64(sipId)
         case None => BadNumber(email, token)
         case Some(id) => Complete(AddCaller(email, token, Caller(-1, displayName, impu, impi, realm, ha1, id))))
      case _ => Refused(INVALID_DATA_TYPE)
    else if EqualsIgnoringCase(action, "req_account_info") then Complete(Info(email, token))
    else
      var sip := EqualsIgnoringCase(action, "req_account_sip_delete");
      var caller := EqualsIgnoringCase(action, "req_account_sip_caller_delete");
      if !sip && !caller then Refused(INVALID_DATA_TYPE)
      else
        match GetIntegral(root, "id")
        case None => Refused(INVALID_DATA_TYPE)
        case Some(id) =>
          match AsInt64(id)
          case None => BadNumber(email, token)
          case Some(n) => Complete(if sip then DeleteSip(email, token, n) else DeleteCaller(email, token, n))
  }

  // The optional fields are not: a missing or null text or number is refused whether or
  // not null is allowed, since null passes no type test but that for objects.
  lemma NullIsNeverOptional(parent: Value, name: string)
    ensures GetText(parent, name, true) == GetText(parent, name, false)
    ensures GetIntegral(parent, name).Some? <==>
              parent.Object? && IsIntegral(Lookup(parent.members, Name(name)))
  {
  }

  // ---------------------------------------------------------------- handling

  // What the reader made of a request is decoded and served.
  function Handle(
      s: State, root: Value, parsed: bool, encode: string -> string, captcha: bool, env: Env): (State, Reply)
  {
    if !parsed then (s, Code(PARSING_FAILED))
    else
      match Decode(root, encode, captcha)
      case Refused(code) => (s, Code(code))
      case Complete(request) =>
        var (t, code) := Serve(s, request, env);
        (t, Code(code))
      case BadNumber(email, token) =>
        var (a, code) := Authorize(s.db, email, token, env);
        (s, if a.None? then Code(code) else Thrown)
  }

  // handleJsonContent on the bytes of a request, read with the settings it uses.
  function HandleContent(
      s: State, data: string, scan: string -> Option<Double>, encode: string -> string, captcha: bool, env: Env)
    : (State, Reply)
  {
    if data == "" then (s, Code(INTERNAL_ERROR))
    else
      var r := JsonGrammar.Source(data, JsonGrammar.Features(true, false), scan).Parse(Null);
      Handle(s, r.value, r.ok, encode, captcha, env)
  }

  // The mails that handling the bytes of a request causes.
  function ContentLetters(
      s: State, data: string, scan: string -> Option<Double>, encode: string -> string, captcha: bool, env: Env)
    : seq<Letter>
  {
    var r := JsonGrammar.Source(data, JsonGrammar.Features(true, false), scan).Parse(Null);
    if data == "" || !r.ok then []
    else
      match Decode(r.value, encode, captcha)
      case Complete(request) => LettersOf(s, request, env)
      case _ => []
  }

  // Whatever bytes come in, the accounts stay safe.
  lemma HandleIsSafe(s: State, root: Value, parsed: bool, encode: string -> string, captcha: bool, env: Env)
    requires Ok(s.db)
    ensures Safe(s.db, Handle(s, root, parsed, encode, captcha, env).0.db)
  {
    SafeSame(s.db);
    var d := Decode(root, encode, captcha);
    hide Decode;
    if parsed && d.Complete? { ServeIsSafe(s, d.request, env); }
    hide Serve, Safe;
  }

  // Where captchas are asked for, no content adds an account or sends a mail, whatever it
  // says: accounts keep their ids, and only a verdict of the captcha service adds one.
  lemma CaptchaGuards(s: State, data: string, scan: string -> Option<Double>, encode: string -> string, env: Env)
    ensures var t := HandleContent(s, data, scan, encode, true, env).0;
            && |t.db.accounts| == |s.db.accounts| && t.db.nextAccount == s.db.nextAccount
            && t.accountsCount == s.accountsCount
    ensures ContentLetters(s, data, scan, encode, true, env) == []
  {
    var r := JsonGrammar.Source(data, JsonGrammar.Features(true, false), scan).Parse(Null);
    NoAddWithCaptcha(r.value, encode);
    var d := Decode(r.value, encode, true);
    hide Decode, JsonGrammar.Source.Parse;
    if d.Complete? { OthersAddNone(s, d.request, env); }
    hide Serve, Authorize;
  }

  lemma NoAddWithCaptcha(root: Value, encode: string -> string)
    ensures var d := Decode(root, encode, true); d.Complete? ==> !d.request.AddAccount?
  {
    hide GetText, GetIntegral, Get, EqualsIgnoringCase, AsInt64;
  }

  lemma OthersAddNone(s: State, request: Request, env: Env)
    requires !request.AddAccount?
    ensures var t := Serve(s, request, env).0;
            && |t.db.accounts| == |s.db.accounts| && t.db.nextAccount == s.db.nextAccount
            && t.accountsCount == s.accountsCount
  {
    hide ByEmail, WithoutZombies;
  }

  // The members of an object keep their place when it is written and read again.
  lemma {:induction false} LookupInCanon(e: Entries, k: Key)
    ensures Lookup(JsonLayout.CanonMembers(e), k) == JsonLayout.Canon(Lookup(e, k))
    decreases e
  {
    if e.Entry? { LookupInCanon(e.rest, k); }
  }

  lemma TextInCanon(v: Value, name: string)
    ensures GetText(JsonLayout.Canon(v), name, true) == GetText(v, name, true)
    ensures GetText(JsonLayout.Canon(v), name, false) == GetText(v, name, false)
  {
    if v.Object? { LookupInCanon(v.members, Name(name)); }
  }

  lemma NumberInCanon(v: Value, name: string)
    requires WellFormed(v)
    ensures GetIntegral(JsonLayout.Canon(v), name).Some? <==> GetIntegral(v, name).Some?
    ensures GetIntegral(v, name).Some? ==>
              AsInt64(GetIntegral(JsonLayout.Canon(v), name).value) == AsInt64(GetIntegral(v, name).value)
  {
    if v.Object? {
      LookupInCanon(v.members, Name(name));
      WellFormedLookup(v.members, Name(name));
    }
  }

  lemma {:induction false} WellFormedLookup(e: Entries, k: Key)
    requires WellFormedEntries(e)
    ensures WellFormed(Lookup(e, k))
    decreases e
  {
    if e.Entry? { WellFormedLookup(e.rest, k); }
  }

  // A request says the same before and after it is written and read.
  lemma DecodeInCanon(v: Value, encode: string -> string, captcha: bool)
    requires WellFormed(v)
    ensures Decode(JsonLayout.Canon(v), encode, captcha) == Decode(v, encode, captcha)
  {
    var c := JsonLayout.Canon(v);
    TextInCanon(v, "action");
    TextInCanon(v, "name");
    TextInCanon(v, "email");
    TextInCanon(v, "captcha_value");
    TextInCanon(v, "code");
    TextInCanon(v, "auth_token");
    AuthorizedInCanon(v, encode);
    hide GetText, EqualsIgnoringCase, DecodeAuthorized, JsonLayout.Canon;
  }

  lemma AuthorizedInCanon(v: Value, encode: string -> string)
    requires WellFormed(v)
    ensures forall action, email, token ::
              DecodeAuthorized(JsonLayout.Canon(v), action, email, token, encode) ==
              DecodeAuthorized(v, action, email, token, encode)
  {
    TextInCanon(v, "display_name");
    TextInCanon(v, "impu");
    TextInCanon(v, "impi");
    TextInCanon(v, "realm");
    TextInCanon(v, "ha1");
    NumberInCanon(v, "account_sip_id");
    NumberInCanon(v, "id");
    SipInCanon(v);
    hide GetText, GetIntegral, EqualsIgnoringCase, JsonLayout.Canon, Get, AsInt64;
  }

  lemma SipInCanon(v: Value)
    ensures var a, b := Get(v, "sip", x => IsObject(x), true), Get(JsonLayout.Canon(v), "sip", x => IsObject(x), true);
            && (a.Some? <==> b.Some?)
            && (a.Some? ==> GetText(b.value, "address", true) == GetText(a.value, "address", true))
  {
    if v.Object? { LookupInCanon(v.members, Name("sip")); }
    var a := Get(v, "sip", x => IsObject(x), true);
    if a.Some? { TextInCanon(a.value, "address"); }
  }

  class C2CTransport {
    const scan: string -> Option<Double>
    const encode: string -> string
    const hasCaptcha: bool
    const hasMailTransport: bool
    var db: Db
    var accountsCount: nat
    var outbox: seq<Post>

    constructor (
        scan: string -> Option<Double>, encode: string -> string, hasCaptcha: bool, hasMailTransport: bool)
      ensures View() == State(EmptyDb(), 0) && outbox == []
      ensures this.scan == scan && this.encode == encode
      ensures this.hasCaptcha == hasCaptcha && this.hasMailTransport == hasMailTransport
    {
      this.scan := scan;
      this.encode := encode;
      this.hasCaptcha, this.hasMailTransport := hasCaptcha, hasMailTransport;
      db, accountsCount, outbox := EmptyDb(), 0, [];
    }

    function View(): State
      reads this
    {
      State(db, accountsCount)
    }

    method SelectAccountByEmail(email: string, env: Env) returns (a: Option<Account>)
      ensures a == Select(db, email, env)
    {
      if !env.selects { return None; }
      var i := 0;
      while i < |db.accounts|
        invariant 0 <= i <= |db.accounts| && ByEmail(db.accounts[i..], email) == ByEmail(db.accounts, email)
      {
        if db.accounts[i].email == email {
          return Some(db.accounts[i].(epoch := env.now));
        }
        i := i + 1;
      }
      a := None;
    }

    method UpdateAccount(a: Account, env: Env) returns (ok: bool)
      modifies `db
      ensures ok == env.writes && db == Update(old(db), a, env).0
    {
      ok := env.writes;
      if ok { db := db.(accounts := Updated(db.accounts, a)); }
    }

    // Letters as they leave, if there is anything to hand them to.
    function Outgoing(letters: seq<Letter>): seq<Post> {
      if hasMailTransport then Posts(letters, encode) else []
    }

    // Hands a mail on if there is anything to hand it to.
    method SendActivationMail(a: Account) returns (ok: bool)
      modifies `outbox
      ensures ok == hasMailTransport
      ensures outbox == old(outbox) + Outgoing([Letter(a.email, a.name, a.code, a.password)])
    {
      ok := hasMailTransport;
      hide Text;
      if ok {
        var letter := Letter(a.email, a.name, a.code, a.password);
        outbox := outbox + [Post(a.email, SUBJECT, Text(letter, encode(a.email)))];
      }
    }

    // An account that exists is renamed, any other is added; once in a while accounts
    // that were never activated are deleted first.
    method AddAccountAndSendActivationMail(email: string, name: string, env: Env) returns (code: nat)
      modifies this
      ensures (View(), code) == Add(old(View()), email, name, env)
      ensures outbox == old(outbox) + Outgoing(Letters(old(View()), email, name, env))
    {
      hide ByEmail, Updated, WithoutZombies;
      if accountsCount == 0 || accountsCount % ACCOUNTS_BETWEEN_KILLS == 0 {
        if env.kills {
          db := db.(accounts := WithoutZombies(db.accounts, env.now - ZOMBIE_LIFE_TIME));
        }
      }
      accountsCount := accountsCount + 1;
      var account := SelectAccountByEmail(email, env);
      if account.Some? {
        var renamed := account.value.(name := name);
        var ok := UpdateAccount(renamed, env);
        code := INTERNAL_ERROR;
        if ok {
          var _ := SendActivationMail(renamed);
          code := SUCCESS;
        }
      } else {
        var a := Account(-1, name, email, env.password, env.token, false, env.code, env.now);
        code := INTERNAL_ERROR;
        if env.writes {
          var inserted := Insert(db, a);
          if inserted.Some? {
            db := inserted.value;
            var _ := SendActivationMail(a);
            code := SUCCESS;
          }
        }
      }
    }

    method ActivateByCode(email: string, activationCode: string, env: Env) returns (code: nat)
      modifies `db
      ensures (db, code) == ActivateAccount(old(db), email, activationCode, env)
    {
      hide ByEmail, Updated;
      var account := SelectAccountByEmail(email, env);
      if account.None? { return NOT_FOUND; }
      if !EqualsIgnoringCase(account.value.code, activationCode) { return INVALID_DATA_TYPE; }
      if !account.value.activated {
        var ok := UpdateAccount(account.value.(activated := true), env);
        if !ok { return INTERNAL_ERROR; }
      }
      code := SUCCESS;
    }

    // The checks that all requests on an activated account share.
    method CheckAccount(email: string, token: string, env: Env) returns (account: Option<Account>, code: nat)
      ensures (account, code) == Authorize(db, email, token, env)
    {
      hide ByEmail;
      account := SelectAccountByEmail(email, env);
      if account.None? { return None, NOT_FOUND; }
      if !account.value.activated { return None, UNAUTHORIZED; }
      if account.value.token != token { return None, UNAUTHORIZED; }
      code := SUCCESS;
    }

    // The captcha service's verdict on an earlier request to add an account.
    method OnValidationEvent(success: bool, email: string, name: string, env: Env)
      modifies this
      ensures View() == if success then Add(old(View()), email, name, env).0 else old(View())
      ensures outbox == old(outbox) + Outgoing(if success then Letters(old(View()), email, name, env) else [])
    {
      if success {
        var _ := AddAccountAndSendActivationMail(email, name, env);
      }
    }

    method ServeRequest(request: Request, env: Env) returns (code: nat)
      modifies this
      ensures (View(), code) == Serve(old(View()), request, env)
      ensures outbox == old(outbox) + Outgoing(LettersOf(old(View()), request, env))
    {
      hide Add, ActivateAccount, Authorize, InsertSip, InsertCaller, WithoutSip, WithoutCaller;
      var account;
      match request {
        case AddAccount(email, name) => code := AddAccountAndSendActivationMail(email, name, env);
        case Verify(email, name, captcha) => code := if env.validates then ACCEPTED else INTERNAL_ERROR;
        case Activate(email, activationCode) => code := ActivateByCode(email, activationCode, env);
        case Info(email, token) => account, code := CheckAccount(email, token, env);
        case AddSip(email, token, address) =>
          account, code := CheckAccount(email, token, env);
          if account.Some? {
            code := if env.writes then SUCCESS else INTERNAL_ERROR;
            if env.writes { db := InsertSip(db, address, account.value.id); }
          }
        case AddCaller(email, token, caller) =>
          account, code := CheckAccount(email, token, env);
          if account.Some? {
            code := if env.writes then SUCCESS else INTERNAL_ERROR;
            if env.writes { db := InsertCaller(db, caller); }
          }
        case DeleteSip(email, token, id) =>
          account, code := CheckAccount(email, token, env);
          if account.Some? {
            code := if env.writes then SUCCESS else INTERNAL_ERROR;
            if env.writes { db := db.(sips := WithoutSip(db.sips, id)); }
          }
        case DeleteCaller(email, token, id) =>
          account, code := CheckAccount(email, token, env);
          if account.Some? {
            code := if env.writes then SUCCESS else INTERNAL_ERROR;
            if env.writes { db := db.(callers := WithoutCaller(db.callers, id)); }
          }
      }
    }

    method HandleJsonContent(data: string, env: Env) returns (reply: Reply)
      modifies this
      ensures (View(), reply) == HandleContent(old(View()), data, scan, encode, hasCaptcha, env)
      ensures outbox == old(outbox) + Outgoing(ContentLetters(old(View()), data, scan, encode, hasCaptcha, env))
    {
      hide Serve, Authorize, Decode;
      if data == "" { return Code(INTERNAL_ERROR); }
      var reader := new JsonReader.Reader(JsonGrammar.Features(true, false), scan);
      var parsed := reader.Parse(data, Null);
      if !parsed { return Code(PARSING_FAILED); }
      match Decode(reader.root, encode, hasCaptcha) {
        case Refused(code) => reply := Code(code);
        case Complete(request) =>
          var code := ServeRequest(request, env);
          reply := Code(code);
        case BadNumber(email, token) =>
          var account, code := CheckAccount(email, token, env);
          reply := if account.None? then Code(code) else Thrown;
      }
    }
  }

  // A request that a client prints with either writer is served as the value it printed.
  lemma WrittenRequestIsServed(
      src: JsonGrammar.Source, v: Value, s: State, encode: string -> string, captcha: bool, env: Env)
    requires WellFormed(v) && JsonLayout.Printable(v) && !src.features.strictRoot
    requires JsonPrint.Laid(src.doc, JsonLayout.Tokens(v))
    ensures var r := src.Parse(Null);
            Handle(s, r.value, r.ok, encode, captcha, env) == Handle(s, v, true, encode, captcha, env)
  {
    JsonLayout.LayoutParses(src, Null, v);
    DecodeInCanon(v, encode, captcha);
    hide Serve, Decode, JsonLayout.Canon, Authorize;
  }
}
