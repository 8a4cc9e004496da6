// The requests of the click-to-call service as JSON documents: which fields say what, that
// decoding finds exactly that, and what a request that is written and sent leaves behind.

module C2CRequests {
  import opened Common
  import opened AccountStore
  import opened JsonValue
  import opened C2CService
  import AccountEffects
  import ActivationMail
  import JsonGrammar
  import JsonLayout
  import JsonNumber
  import JsonPrint
  import JsonTree

  // A field of a request, with the text or the number that it says; the action is told
  // without regard to case.
  datatype Field =
    | Action(action: string)
    | Text(name: string, text: string)
    | Number(name: string, number: int)
    | Inner(name: string, field: Field)

  // The requests as a client means them: the address of a SIP account is plain.
  function FieldsOf(r: Request): seq<Field> {
    match r
    case AddAccount(email, name) => [Action("req_account_add"), Text("name", name), Text("email", email)]
    case Verify(email, name, captcha) =>
      [Action("req_account_add"), Text("name", name), Text("email", email), Text("captcha_value", captcha)]
    case Activate(email, code) => [Action("req_account_activate"), Text("email", email), Text("code", code)]
    case AddSip(email, token, address) =>
      [Action("req_account_sip_add"), Text("email", email), Text("auth_token", token),
       Inner("sip", Text("address", address))]
    case AddCaller(email, token, c) =>
      [Action("req_account_sip_caller_add"), Text("email", email), Text("auth_token", token),
       Text("display_name", c.displayName), Text("impu", c.impu), Text("impi", c.impi), Text("realm", c.realm),
       Text("ha1", c.ha1), Number("account_sip_id", c.sipId)]
    case Info(email, token) => [Action("req_account_info"), Text("email", email), Text("auth_token", token)]
    case DeleteSip(email, token, id) =>
      [Action("req_account_sip_delete"), Text("email", email), Text("auth_token", token), Number("id", id)]
    case DeleteCaller(email, token, id) =>
      [Action("req_account_sip_caller_delete"), Text("email", email), Text("auth_token", token), Number("id", id)]
  }

  // A captcha is part of a request to add an account exactly where captchas are asked for;
  // a new caller row has no number yet.
  predicate CanBeAsked(r: Request, captcha: bool) {
    && (r.AddAccount? ==> !captcha) && (r.Verify? ==> captcha)
    && (r.AddCaller? ==> r.caller.id == -1)
  }

  // The request as it reaches the tables.
  function Stored(r: Request, encode: string -> string): Request {
    if r.AddSip? then r.(address := encode(r.address)) else r
  }

  function Member(v: Value, name: string): Value {
    if v.Object? then Lookup(v.members, Name(name)) else Null
  }

  // A null string pointer says the empty text.
  predicate SaysText(v: Value, text: string) {
    v.Str? && text == if v.s.Chars? then v.s.text else ""
  }

  // Of numbers those within 64 bits with a sign; a bool is one of them.
  predicate SaysNumber(v: Value, n: int) {
    match v
    case Int(i) => n == i
    case UInt(u) => n == u < JsonNumber.TWO_63
    case Bool(b) => n == if b then 1 else 0
    case _ => false
  }

  ghost predicate Says(v: Value, f: Field)
    decreases f
  {
    match f
    case Action(action) => exists text :: SaysText(Member(v, "action"), text) && EqualsIgnoringCase(text, action)
    case Text(name, text) => SaysText(Member(v, name), text)
    case Number(name, n) => SaysNumber(Member(v, name), n)
    case Inner(name, field) => Says(Member(v, name), field)
  }

  ghost predicate SaysAll(v: Value, fs: seq<Field>) {
    forall i :: 0 <= i < |fs| ==> Says(v, fs[i])
  }

  ghost predicate AsksFor(v: Value, r: Request, captcha: bool) {
    CanBeAsked(r, captcha) && SaysAll(v, FieldsOf(r))
  }

  // ---------------------------------------------------------------- decoding

  lemma TextIs(v: Value, name: string, couldBeNull: bool, text: string)
    ensures GetText(v, name, couldBeNull) == Some(text) <==> SaysText(Member(v, name), text)
  {
  }

  lemma NumberIs(v: Value, name: string, n: int)
    ensures GetIntegral(v, name).Some? && AsInt64(GetIntegral(v, name).value) == Some(n) <==>
            SaysNumber(Member(v, name), n)
  {
  }

  // No text is two of the actions, since their names differ in length.
  lemma OneAction(a: string, x: string, y: string)
    requires EqualsIgnoringCase(a, x) && EqualsIgnoringCase(a, y)
    ensures |x| == |y|
  {
  }

  predicate ActionIs(v: Value, action: string) {
    GetText(v, "action", false).Some? && EqualsIgnoringCase(GetText(v, "action", false).value, action)
  }

  lemma SaysAction(v: Value, action: string)
    ensures Says(v, Action(action)) <==> ActionIs(v, action)
  {
    var t := GetText(v, "action", false);
    if t.Some? { TextIs(v, "action", false, t.value); }
    forall text | SaysText(Member(v, "action"), text) ensures t == Some(text) { TextIs(v, "action", false, text); }
    hide EqualsIgnoringCase;
  }

  lemma SipAddressIs(v: Value, address: string)
    ensures var sip := Get(v, "sip", x => IsObject(x), true);
            sip.Some? && GetText(sip.value, "address", true) == Some(address) <==>
            Says(v, Inner("sip", Text("address", address)))
  {
    var sip := Get(v, "sip", x => IsObject(x), true);
    if sip.Some? { TextIs(sip.value, "address", true, address); }
    hide GetText;
  }

  // The fields as the code fetches them.
  predicate Fetched(v: Value, r: Request) {
    match r
    case AddAccount(email, name) => GetText(v, "name", false) == Some(name) && GetText(v, "email", false) == Some(email)
    case Verify(email, name, value) =>
      && GetText(v, "name", false) == Some(name) && GetText(v, "email", false) == Some(email)
      && GetText(v, "captcha_value", false) == Some(value)
    case Activate(email, code) => GetText(v, "email", false) == Some(email) && GetText(v, "code", false) == Some(code)
    case AddSip(email, token, address) =>
      && Signed(v, email, token)
      && var sip := Get(v, "sip", x => IsObject(x), true);
         sip.Some? && GetText(sip.value, "address", true) == Some(address)
    case AddCaller(email, token, c) =>
      && Signed(v, email, token) && CallerTexts(v, c)
      && GetIntegral(v, "account_sip_id").Some?
      && AsInt64(GetIntegral(v, "account_sip_id").value) == Some(c.sipId)
    case Info(email, token) => Signed(v, email, token)
    case DeleteSip(email, token, id) => Signed(v, email, token) && IdIs(v, id)
    case DeleteCaller(email, token, id) => Signed(v, email, token) && IdIs(v, id)
  }

  predicate Signed(v: Value, email: string, token: string) {
    GetText(v, "email", true) == Some(email) && GetText(v, "auth_token", true) == Some(token)
  }

  predicate IdIs(v: Value, id: int) {
    GetIntegral(v, "id").Some? && AsInt64(GetIntegral(v, "id").value) == Some(id)
  }

  predicate CallerTexts(v: Value, c: Caller) {
    && GetText(v, "display_name", false) == Some(c.displayName) && GetText(v, "impu", true) == Some(c.impu)
    && GetText(v, "impi", true) == Some(c.impi) && GetText(v, "realm", true) == Some(c.realm)
    && GetText(v, "ha1", true) == Some(c.ha1)
  }

  function ActionOf(r: Request): (a: string)
    ensures IsAction(a)
  {
    FieldsOf(r)[0].action
  }

  lemma TwoParts(v: Value, a: seq<Field>, b: seq<Field>)
    ensures SaysAll(v, a + b) <==> SaysAll(v, a) && SaysAll(v, b)
  {
    hide Says;
    forall i | 0 <= i < |a| ensures (a + b)[i] == a[i] {}
    forall i | 0 <= i < |b| ensures (a + b)[|a| + i] == b[i] {}
  }

  lemma OneField(v: Value, a: Field)
    ensures SaysAll(v, [a]) <==> Says(v, a)
  {
    hide Says;
    assert [a][0] == a;
  }

  lemma ThreeFields(v: Value, a: Field, b: Field, c: Field)
    ensures SaysAll(v, [a, b, c]) <==> Says(v, a) && Says(v, b) && Says(v, c)
  {
    OneField(v, a);
    OneField(v, b);
    OneField(v, c);
    hide SaysAll;
    TwoParts(v, [a], [b]);
    TwoParts(v, [a] + [b], [c]);
    assert [a] + [b] + [c] == [a, b, c];
  }

  lemma FourFields(v: Value, a: Field, b: Field, c: Field, d: Field)
    ensures SaysAll(v, [a, b, c, d]) <==> Says(v, a) && Says(v, b) && Says(v, c) && Says(v, d)
  {
    hide SaysAll;
    ThreeFields(v, a, b, c);
    OneField(v, d);
    TwoParts(v, [a, b, c], [d]);
    assert [a, b, c] + [d] == [a, b, c, d];
  }

  lemma SignedIs(v: Value, email: string, token: string)
    ensures Signed(v, email, token) <==> Says(v, Text("email", email)) && Says(v, Text("auth_token", token))
  {
    TextIs(v, "email", true, email);
    TextIs(v, "auth_token", true, token);
    hide GetText;
  }

  lemma CallerIs(v: Value, c: Caller)
    ensures CallerTexts(v, c) <==>
            && Says(v, Text("display_name", c.displayName)) && Says(v, Text("impu", c.impu))
            && Says(v, Text("impi", c.impi)) && Says(v, Text("realm", c.realm)) && Says(v, Text("ha1", c.ha1))
  {
    TextIs(v, "display_name", false, c.displayName);
    TextIs(v, "impu", true, c.impu);
    TextIs(v, "impi", true, c.impi);
    TextIs(v, "realm", true, c.realm);
    TextIs(v, "ha1", true, c.ha1);
    hide GetText, SaysText;
  }

  // What is fetched is what the fields say.
  lemma FetchedIff(v: Value, r: Request)
    ensures SaysAll(v, FieldsOf(r)) <==> ActionIs(v, ActionOf(r)) && Fetched(v, r)
  {
    hide SaysAll, ActionIs, GetText, GetIntegral, Get, AsInt64, SaysText, SaysNumber, Signed, CallerTexts;
    var fs := FieldsOf(r);
    SaysAction(v, ActionOf(r));
    match r {
      case AddAccount(email, name) =>
        TextIs(v, "name", false, name);
        TextIs(v, "email", false, email);
        ThreeFields(v, fs[0], fs[1], fs[2]);
      case Verify(email, name, value) =>
        TextIs(v, "name", false, name);
        TextIs(v, "email", false, email);
        TextIs(v, "captcha_value", false, value);
        FourFields(v, fs[0], fs[1], fs[2], fs[3]);
      case Activate(email, code) =>
        TextIs(v, "email", false, email);
        TextIs(v, "code", false, code);
        ThreeFields(v, fs[0], fs[1], fs[2]);
      case AddSip(email, token, address) =>
        SignedIs(v, email, token);
        SipAddressIs(v, address);
        FourFields(v, fs[0], fs[1], fs[2], fs[3]);
      case AddCaller(email, token, c) => CallerFetched(v, r);
      case Info(email, token) =>
        SignedIs(v, email, token);
        ThreeFields(v, fs[0], fs[1], fs[2]);
      case DeleteSip(email, token, id) =>
        SignedIs(v, email, token);
        NumberIs(v, "id", id);
        FourFields(v, fs[0], fs[1], fs[2], fs[3]);
      case DeleteCaller(email, token, id) =>
        SignedIs(v, email, token);
        NumberIs(v, "id", id);
        FourFields(v, fs[0], fs[1], fs[2], fs[3]);
    }
  }

  lemma CallerFetched(v: Value, r: Request)
    requires r.AddCaller?
    ensures SaysAll(v, FieldsOf(r)) <==> Says(v, FieldsOf(r)[0]) && Fetched(v, r)
  {
    hide SaysAll, GetText, GetIntegral, AsInt64, SaysText, SaysNumber, Signed, CallerTexts;
    var fs := FieldsOf(r);
    SignedIs(v, r.email, r.token);
    CallerIs(v, r.caller);
    NumberIs(v, "account_sip_id", r.caller.sipId);
    ThreeFields(v, fs[0], fs[1], fs[2]);
    ThreeFields(v, fs[3], fs[4], fs[5]);
    ThreeFields(v, fs[6], fs[7], fs[8]);
    TwoParts(v, [fs[0], fs[1], fs[2]], [fs[3], fs[4], fs[5]]);
    TwoParts(v, [fs[0], fs[1], fs[2]] + [fs[3], fs[4], fs[5]], [fs[6], fs[7], fs[8]]);
    assert fs == [fs[0], fs[1], fs[2]] + [fs[3], fs[4], fs[5]] + [fs[6], fs[7], fs[8]];
  }

  predicate IsAction(a: string) {
    || a == "req_account_add" || a == "req_account_activate" || a == "req_account_sip_add"
    || a == "req_account_sip_caller_add" || a == "req_account_info" || a == "req_account_sip_delete"
    || a == "req_account_sip_caller_delete"
  }

  lemma SameLength(a: string, b: string)
    requires IsAction(a) && IsAction(b) && |a| == |b|
    ensures a == b
  {
  }

  // Only the action that the text is.
  ghost predicate OnlyAction(v: Value, action: string) {
    IsAction(action) && forall other :: IsAction(other) ==> (ActionIs(v, other) <==> other == action)
  }

  lemma {:induction false} OtherActions(v: Value, action: string)
    requires IsAction(action) && ActionIs(v, action)
    ensures OnlyAction(v, action)
  {
    forall other | IsAction(other) && ActionIs(v, other) ensures other == action {
      OneAction(GetText(v, "action", false).value, action, other);
      SameLength(action, other);
    }
  }

  lemma ActionCases(v: Value, action: string)
    requires OnlyAction(v, action)
    ensures var a := GetText(v, "action", false);
            && a.Some?
            && (EqualsIgnoringCase(a.value, "req_account_add") <==> action == "req_account_add")
            && (EqualsIgnoringCase(a.value, "req_account_activate") <==> action == "req_account_activate")
            && (EqualsIgnoringCase(a.value, "req_account_sip_add") <==> action == "req_account_sip_add")
            && (EqualsIgnoringCase(a.value, "req_account_sip_caller_add") <==> action == "req_account_sip_caller_add")
            && (EqualsIgnoringCase(a.value, "req_account_info") <==> action == "req_account_info")
            && (EqualsIgnoringCase(a.value, "req_account_sip_delete") <==> action == "req_account_sip_delete")
            && (EqualsIgnoringCase(a.value, "req_account_sip_caller_delete") <==>
                  action == "req_account_sip_caller_delete")
  {
    hide EqualsIgnoringCase;
    assert ActionIs(v, action);
    assert ActionIs(v, "req_account_add") <==> "req_account_add" == action;
    assert ActionIs(v, "req_account_activate") <==> "req_account_activate" == action;
    assert ActionIs(v, "req_account_sip_add") <==> "req_account_sip_add" == action;
    assert ActionIs(v, "req_account_sip_caller_add") <==> "req_account_sip_caller_add" == action;
    assert ActionIs(v, "req_account_info") <==> "req_account_info" == action;
    assert ActionIs(v, "req_account_sip_delete") <==> "req_account_sip_delete" == action;
    assert ActionIs(v, "req_account_sip_caller_delete") <==> "req_account_sip_caller_delete" == action;
    hide GetText;
  }

  // A document that asks for a request is decoded as that very request.
  lemma AskedIsDecoded(v: Value, r: Request, encode: string -> string, captcha: bool)
    requires AsksFor(v, r, captcha)
    ensures Decode(v, encode, captcha) == Complete(Stored(r, encode))
  {
    hide GetText, GetIntegral, Get, AsInt64, EqualsIgnoringCase, Says, ActionIs, OnlyAction, IsAction;
    FetchedIff(v, r);
    OtherActions(v, ActionOf(r));
    ActionCases(v, ActionOf(r));
    NamesDiffer(r);
  }

  lemma NamesDiffer(r: Request)
    ensures |ActionOf(r)| ==
            match r
            case AddAccount(_, _) => 15
            case Verify(_, _, _) => 15
            case Activate(_, _) => 20
            case AddSip(_, _, _) => 19
            case AddCaller(_, _, _) => 26
            case Info(_, _) => 16
            case DeleteSip(_, _, _) => 22
            case DeleteCaller(_, _, _) => 29
  {
  }

  // ------------------------------------------------------ the other direction

  // And nothing else is: what is decoded as a request asks for it, field by field.
  lemma DecodedIsAsked(v: Value, encode: string -> string, captcha: bool) returns (r: Request)
    requires Decode(v, encode, captcha).Complete?
    ensures AsksFor(v, r, captcha) && Decode(v, encode, captcha) == Complete(Stored(r, encode))
  {
    var action := GetText(v, "action", false);
    r := Guess(v, captcha);
    FetchedIff(v, r);
    GuessIs(v, encode, captcha);
    AskedIsDecoded(v, r, encode, captcha);
  }

  function TextOf(v: Value, name: string): string {
    match GetText(v, name, true) case None => "" case Some(t) => t
  }

  function NumberOf(v: Value, name: string): int {
    match GetIntegral(v, name)
    case None => 0
    case Some(n) => match AsInt64(n) case None => 0 case Some(i) => i
  }

  function SipAddressOf(v: Value): string {
    match Get(v, "sip", x => IsObject(x), true) case None => "" case Some(sip) => TextOf(sip, "address")
  }

  // The request that the fields make up, by the action.
  function Guess(v: Value, captcha: bool): Request {
    var email, token := TextOf(v, "email"), TextOf(v, "auth_token");
    if ActionIs(v, "req_account_add") then
      if captcha then Verify(email, TextOf(v, "name"), TextOf(v, "captcha_value"))
      else AddAccount(email, TextOf(v, "name"))
    else if ActionIs(v, "req_account_activate") then Activate(email, TextOf(v, "code"))
    else if ActionIs(v, "req_account_sip_add") then AddSip(email, token, SipAddressOf(v))
    else if ActionIs(v, "req_account_sip_caller_add") then
      AddCaller(email, token, Caller(-1, TextOf(v, "display_name"), TextOf(v, "impu"), TextOf(v, "impi"),
                                     TextOf(v, "realm"), TextOf(v, "ha1"), NumberOf(v, "account_sip_id")))
    else if ActionIs(v, "req_account_info") then Info(email, token)
    else if ActionIs(v, "req_account_sip_delete") then DeleteSip(email, token, NumberOf(v, "id"))
    else DeleteCaller(email, token, NumberOf(v, "id"))
  }

  lemma TextEither(v: Value, name: string)
    ensures GetText(v, name, true) == GetText(v, name, false)
  {
  }

  lemma GuessIs(v: Value, encode: string -> string, captcha: bool)
    requires Decode(v, encode, captcha).Complete?
    ensures var r := Guess(v, captcha);
            CanBeAsked(r, captcha) && ActionIs(v, ActionOf(r)) && Fetched(v, r)
  {
    hide GetText, GetIntegral, Get, AsInt64, EqualsIgnoringCase;
    TextEither(v, "name");
    TextEither(v, "email");
    TextEither(v, "captcha_value");
    TextEither(v, "code");
    TextEither(v, "display_name");
  }

  // A document is decoded as a request exactly when it asks for one, which is that one.
  lemma DecodeIff(v: Value, encode: string -> string, captcha: bool, stored: Request)
    ensures Decode(v, encode, captcha) == Complete(stored) <==>
            exists r :: AsksFor(v, r, captcha) && stored == Stored(r, encode)
  {
    if Decode(v, encode, captcha) == Complete(stored) { var r := DecodedIsAsked(v, encode, captcha); }
    forall r | AsksFor(v, r, captcha) ensures Decode(v, encode, captcha) == Complete(Stored(r, encode)) {
      AskedIsDecoded(v, r, encode, captcha);
    }
    hide Decode, AsksFor;
  }

  // ------------------------------------------------------- numbers too large

  // A document that says all of a request but its number, which is beyond 64 bits with a
  // sign; in all of these requests the number is the last field.
  ghost predicate IsTooLarge(v: Value, r: Request) {
    && (r.AddCaller? || r.DeleteSip? || r.DeleteCaller?)
    && var fs := FieldsOf(r);
       var x := Member(v, FieldName(fs[|fs| - 1]));
       SaysAll(v, fs[..|fs| - 1]) && x.UInt? && x.u >= JsonNumber.TWO_63
  }

  predicate LargeFetched(v: Value, r: Request)
    requires r.AddCaller? || r.DeleteSip? || r.DeleteCaller?
  {
    var name := if r.AddCaller? then "account_sip_id" else "id";
    && Signed(v, r.email, r.token) && (r.AddCaller? ==> CallerTexts(v, r.caller))
    && GetIntegral(v, name).Some? && AsInt64(GetIntegral(v, name).value).None?
  }

  lemma LargeIs(v: Value, name: string)
    ensures GetIntegral(v, name).Some? && AsInt64(GetIntegral(v, name).value).None? <==>
            Member(v, name).UInt? && Member(v, name).u >= JsonNumber.TWO_63
  {
  }

  lemma TwoFields(v: Value, a: Field, b: Field)
    ensures SaysAll(v, [a, b]) <==> Says(v, a) && Says(v, b)
  {
    OneField(v, a);
    OneField(v, b);
    hide SaysAll;
    TwoParts(v, [a], [b]);
    assert [a] + [b] == [a, b];
  }

  lemma TooLargeIff(v: Value, r: Request)
    requires r.AddCaller? || r.DeleteSip? || r.DeleteCaller?
    ensures IsTooLarge(v, r) <==> ActionIs(v, ActionOf(r)) && LargeFetched(v, r)
  {
    hide SaysAll, ActionIs, GetText, GetIntegral, Get, AsInt64, SaysText, SaysNumber, Signed, CallerTexts;
    var fs := FieldsOf(r);
    SaysAction(v, ActionOf(r));
    SignedIs(v, r.email, r.token);
    LargeIs(v, FieldName(fs[|fs| - 1]));
    if r.AddCaller? {
      CallerIs(v, r.caller);
      ThreeFields(v, fs[0], fs[1], fs[2]);
      ThreeFields(v, fs[3], fs[4], fs[5]);
      TwoFields(v, fs[6], fs[7]);
      TwoParts(v, [fs[0], fs[1], fs[2]], [fs[3], fs[4], fs[5]]);
      TwoParts(v, [fs[0], fs[1], fs[2]] + [fs[3], fs[4], fs[5]], [fs[6], fs[7]]);
      assert fs[..8] == [fs[0], fs[1], fs[2]] + [fs[3], fs[4], fs[5]] + [fs[6], fs[7]];
    } else {
      ThreeFields(v, fs[0], fs[1], fs[2]);
      assert fs[..3] == [fs[0], fs[1], fs[2]];
    }
  }

  lemma LargeIsDecoded(v: Value, r: Request, encode: string -> string, captcha: bool)
    requires IsTooLarge(v, r)
    ensures Decode(v, encode, captcha) == BadNumber(r.email, r.token)
  {
    TooLargeIff(v, r);
    hide GetText, GetIntegral, Get, AsInt64, EqualsIgnoringCase, Says, ActionIs, OnlyAction, IsAction, IsTooLarge;
    OtherActions(v, ActionOf(r));
    ActionCases(v, ActionOf(r));
    NamesDiffer(r);
  }

  lemma DecodedIsLarge(v: Value, encode: string -> string, captcha: bool) returns (r: Request)
    requires Decode(v, encode, captcha).BadNumber?
    ensures IsTooLarge(v, r) && Decode(v, encode, captcha) == BadNumber(r.email, r.token)
  {
    r := Guess(v, captcha);
    GuessIsLarge(v, encode, captcha);
    TooLargeIff(v, r);
    hide IsTooLarge;
    LargeIsDecoded(v, r, encode, captcha);
  }

  lemma GuessIsLarge(v: Value, encode: string -> string, captcha: bool)
    requires Decode(v, encode, captcha).BadNumber?
    ensures var r := Guess(v, captcha);
            (r.AddCaller? || r.DeleteSip? || r.DeleteCaller?) && ActionIs(v, ActionOf(r)) && LargeFetched(v, r)
  {
    hide GetText, GetIntegral, Get, AsInt64, EqualsIgnoringCase;
    TextEither(v, "display_name");
  }

  // What handling comes to, for every document: it is served as the request that it asks
  // for; if only its number is too large, it is refused as the account has it, and else
  // ends in an exception; and any other is refused as invalid. What is no document gets a
  // code of its own, and an empty content another.
  lemma HandleIs(v: Value, s: State, encode: string -> string, captcha: bool, env: Env)
    requires Ok(s.db)
    ensures forall r :: AsksFor(v, r, captcha) ==>
              var (t, code) := Serve(s, Stored(r, encode), env);
              Handle(s, v, true, encode, captcha, env) == (t, Code(code))
    ensures forall r :: IsTooLarge(v, r) ==>
              Handle(s, v, true, encode, captcha, env) ==
              (s, match AccountEffects.Refusal(s.db, r.email, r.token, env) case Some(c) => Code(c) case None => Thrown)
    ensures (forall r :: !AsksFor(v, r, captcha) && !IsTooLarge(v, r)) ==>
              Handle(s, v, true, encode, captcha, env) == (s, Code(483))
    ensures Handle(s, v, false, encode, captcha, env) == (s, Code(420))
  {
    forall r | AsksFor(v, r, captcha) ensures Decode(v, encode, captcha) == Complete(Stored(r, encode)) {
      AskedIsDecoded(v, r, encode, captcha);
    }
    forall r | IsTooLarge(v, r) ensures Decode(v, encode, captcha) == BadNumber(r.email, r.token) {
      LargeIsDecoded(v, r, encode, captcha);
    }
    var d := Decode(v, encode, captcha);
    if d.Complete? {
      var r := DecodedIsAsked(v, encode, captcha);
    } else if d.BadNumber? {
      var r := DecodedIsLarge(v, encode, captcha);
      AccountEffects.AuthorizedIff(s.db, d.email, d.token, env);
    }
    RefusedIsInvalid(v, encode, captcha);
    hide Decode, AsksFor, IsTooLarge, Serve, Authorize, AccountEffects.Refusal, Stored, Ok;
  }

  lemma EmptyIsRefused(
      s: State, scan: string -> Option<Double>, encode: string -> string, captcha: bool, env: Env)
    ensures HandleContent(s, "", scan, encode, captcha, env) == (s, Code(603))
  {
  }

  lemma RefusedIsInvalid(v: Value, encode: string -> string, captcha: bool)
    ensures Decode(v, encode, captcha).Refused? ==> Decode(v, encode, captcha).code == 483
  {
    hide GetText, GetIntegral, Get, AsInt64, EqualsIgnoringCase;
  }

  // -------------------------------------------------------------- documents

  // A document with these fields, written in any order; numbers have a sign.
  function FieldValue(f: Field): Value {
    match f
    case Action(action) => Str(Chars(action))
    case Text(_, text) => Str(Chars(text))
    case Number(_, n) => Int(n)
    case Inner(_, field) => Object(Entry(Name(FieldName(field)), FieldValue(field), End))
  }

  function FieldName(f: Field): string {
    if f.Action? then "action" else f.name
  }

  function EntriesOf(fs: seq<Field>): Entries {
    if fs == [] then End
    else Put(EntriesOf(fs[..|fs| - 1]), Name(FieldName(fs[|fs| - 1])), FieldValue(fs[|fs| - 1]))
  }

  function Document(r: Request): Value {
    Object(EntriesOf(FieldsOf(r)))
  }

  lemma {:induction false} PutOther(e: Entries, k: Key, x: Value, other: Key)
    requires other != k
    ensures Lookup(Put(e, k, x), other) == Lookup(e, other)
    decreases e
  {
    if e.Entry? { PutOther(e.rest, k, x, other); }
  }

  ghost predicate Distinct(fs: seq<Field>) {
    forall i, j :: 0 <= i < j < |fs| ==> FieldName(fs[i]) != FieldName(fs[j])
  }

  lemma {:induction false} FieldIsThere(fs: seq<Field>, i: nat)
    requires Distinct(fs) && i < |fs|
    ensures Lookup(EntriesOf(fs), Name(FieldName(fs[i]))) == FieldValue(fs[i])
    decreases |fs|
  {
    var before, last := fs[..|fs| - 1], fs[|fs| - 1];
    JsonTree.PutGet(EntriesOf(before), Name(FieldName(last)), FieldValue(last), Null);
    hide FieldName, FieldValue;
    if i < |before| {
      FieldIsThere(before, i);
      PutOther(EntriesOf(before), Name(FieldName(last)), FieldValue(last), Name(FieldName(fs[i])));
    }
  }

  lemma SaysField(v: Value, f: Field)
    requires v.Object? && Lookup(v.members, Name(FieldName(f))) == FieldValue(f)
    requires f.Inner? ==> f.field.Text?
    requires f.Number? ==> -JsonNumber.TWO_63 <= f.number < JsonNumber.TWO_63
    ensures Says(v, f)
    decreases f
  {
    match f {
      case Action(action) => assert SaysText(Member(v, "action"), action);
      case Inner(name, field) => SaysField(FieldValue(f), field);
      case _ =>
    }
  }

  // A NUL-free request whose numbers are within 64 bits.
  ghost predicate Writable(r: Request) {
    forall i :: 0 <= i < |FieldsOf(r)| ==> FieldWritable(FieldsOf(r)[i])
  }

  predicate FieldWritable(f: Field) {
    match f
    case Action(action) => NulFree(action)
    case Text(name, text) => NulFree(name) && NulFree(text)
    case Number(name, n) => NulFree(name) && -JsonNumber.TWO_63 <= n < JsonNumber.TWO_63
    case Inner(name, field) => NulFree(name) && field.Text? && FieldWritable(field)
  }

  lemma NamesAreDistinct(r: Request)
    ensures Distinct(FieldsOf(r))
  {
  }

  lemma DocumentAsks(r: Request, captcha: bool)
    requires CanBeAsked(r, captcha) && Writable(r)
    ensures AsksFor(Document(r), r, captcha)
  {
    NamesAreDistinct(r);
    var fs := FieldsOf(r);
    hide FieldsOf, FieldValue, Says;
    forall i | 0 <= i < |fs| ensures Says(Document(r), fs[i]) {
      FieldIsThere(fs, i);
      SaysField(Document(r), fs[i]);
    }
  }

  lemma {:induction false} PutKeepsForm(e: Entries, k: Key, x: Value)
    requires WellFormedEntries(e) && JsonLayout.PrintableEntries(e) && WellFormed(x) && JsonLayout.Printable(x)
    requires k.Name? && NulFree(k.cstr)
    ensures WellFormedEntries(Put(e, k, x)) && JsonLayout.PrintableEntries(Put(e, k, x))
    decreases e
  {
    hide WellFormed, JsonLayout.Printable, NulFree, KeyLess;
    if e.Entry? { PutKeepsForm(e.rest, k, x); }
  }

  lemma FieldForm(f: Field)
    requires FieldWritable(f)
    ensures WellFormed(FieldValue(f)) && JsonLayout.Printable(FieldValue(f)) && NulFree(FieldName(f))
    decreases f
  {
    if f.Inner? { FieldForm(f.field); }
    NoNul("action");
  }

  lemma {:induction false} NoNul(s: string)
    requires '\0' !in s
    ensures NulFree(s)
  {
    if s != "" { NoNul(s[1..]); }
  }

  lemma {:induction false} EntriesForm(fs: seq<Field>)
    requires forall i :: 0 <= i < |fs| ==> FieldWritable(fs[i])
    ensures var e := EntriesOf(fs);
            AllNames(e) && Ascending(e) && WellFormedEntries(e) && JsonLayout.PrintableEntries(e)
    decreases |fs|
  {
    hide FieldWritable, FieldValue, FieldName;
    if fs != [] {
      var before, last := fs[..|fs| - 1], fs[|fs| - 1];
      EntriesForm(before);
      FieldForm(last);
      PutKeepsForm(EntriesOf(before), Name(FieldName(last)), FieldValue(last));
      JsonTree.PutKeepsMap(EntriesOf(before), Name(FieldName(last)), FieldValue(last));
    }
  }

  // Decoding undoes writing, for every request; and the bytes of its document, in any
  // layout, are handled as the request itself is served.
  lemma DocumentIsServed(
      src: JsonGrammar.Source, r: Request, s: State, encode: string -> string, captcha: bool, env: Env)
    requires CanBeAsked(r, captcha) && Writable(r) && !src.features.strictRoot
    requires JsonPrint.Laid(src.doc, JsonLayout.Tokens(Document(r)))
    ensures Decode(Document(r), encode, captcha) == Complete(Stored(r, encode))
    ensures var parsed := src.Parse(Null);
            var (t, code) := Serve(s, Stored(r, encode), env);
            Handle(s, parsed.value, parsed.ok, encode, captcha, env) == (t, Code(code))
  {
    DocumentAsks(r, captcha);
    AskedIsDecoded(Document(r), r, encode, captcha);
    EntriesForm(FieldsOf(r));
    hide Serve, Decode, AsksFor, JsonPrint.Laid, Authorize, JsonLayout.Tokens;
    WrittenRequestIsServed(src, Document(r), s, encode, captcha, env);
  }

  // So the bytes of a request to add an account leave a row with its email and its name,
  // and cause a mail to that address, exactly when the tables can be written.
  lemma AddedAccountIsThere(
      src: JsonGrammar.Source, email: string, name: string, s: State, encode: string -> string, env: Env)
    requires Ok(s.db) && Writable(AddAccount(email, name)) && !src.features.strictRoot
    requires JsonPrint.Laid(src.doc, JsonLayout.Tokens(Document(AddAccount(email, name))))
    ensures var parsed := src.Parse(Null);
            var (t, reply) := Handle(s, parsed.value, parsed.ok, encode, false, env);
            var row := ByEmail(t.db.accounts, email);
            && (reply == Code(SUCCESS) <==>
                  env.writes && (env.selects || ByEmail(KillZombies(s, env).accounts, email).None?))
            && (reply == Code(SUCCESS) ==>
                  && row.Some? && row.value.email == email && row.value.name == name
                  && ActivationMail.LettersOf(s, AddAccount(email, name), env) ==
                     [ActivationMail.Letter(email, name, row.value.code, row.value.password)])
  {
    DocumentIsServed(src, AddAccount(email, name), s, encode, false, env);
    ActivationMail.MailedIff(s, email, name, env);
    hide Add, Handle, Writable, JsonPrint.Laid, ActivationMail.Letters, KillZombies, Ok;
  }
}
