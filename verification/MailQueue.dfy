// The outgoing mail service: mails wait in a list while there is no connection to the SMTP
// host, and are sent in one go when the connection comes up.

module MailQueue {
  import opened Common

  datatype Mail = Mail(src: string, dst: string, subject: string, data: string)

  // A mail that went out: on which connection, counted from 1, and with AUTH LOGIN or not.
  datatype Delivery = Delivery(mail: Mail, connection: nat, auth: bool)

  // The account that the service sends from, already in base64.
  datatype Account = Account(host: string, email: string, authName: string, authPwd: string)

  // Whether the n-th attempt to send succeeds; running out of memory is a failed attempt.
  type Net = nat -> bool

  // The fields of the transport, the sockets that are up, and what happened so far.
  datatype State = State(
    pending: seq<Mail>,
    connectToPending: bool,
    needToAuthenticate: bool,
    connectedFd: Option<int>,
    online: set<int>,
    connections: nat,
    dials: nat,
    sent: seq<Delivery>,
    lost: seq<Mail>,
    submitted: seq<Mail>)
  {
    predicate Connected() { connectedFd.Some? && connectedFd.value in online }

    function Attempts(): nat { |sent| + |lost| }
  }

  function Initial(): State {
    State([], false, true, None, {}, 0, 0, [], [], [])
  }

  // The private sendMail, when connected: the mail goes out or is gone.
  function Send(s: State, m: Mail, net: Net): State {
    if net(s.Attempts()) then s.(sent := s.sent + [Delivery(m, s.connections, s.needToAuthenticate)])
    else s.(lost := s.lost + [m])
  }

  // sendPendingMails: it stops at the first mail that cannot be sent.
  function Flush(s: State, net: Net): (r: State)
    decreases |s.pending|
  {
    if !s.Connected() || s.pending == [] then s
    else
      var t := Send(s.(pending := s.pending[1..]), s.pending[0], net);
      if !net(s.Attempts()) then t else Flush(t.(needToAuthenticate := false), net)
  }

  // One turn of its loop, and its end.
  lemma FlushStep(s: State, net: Net)
    ensures !s.Connected() || s.pending == [] ==> Flush(s, net) == s
    ensures s.Connected() && s.pending != [] ==>
              var t := Send(s.(pending := s.pending[1..]), s.pending[0], net);
              && Flush(s, net) == (if net(s.Attempts()) then Flush(t.(needToAuthenticate := false), net) else t)
              && |t.lost| == |s.lost| + (if net(s.Attempts()) then 0 else 1)
              && (net(s.Attempts()) ==> t.lost == s.lost) && t.pending == s.pending[1..]
  {
    hide Flush;
    FlushUnfolds(s, net);
  }

  lemma FlushUnfolds(s: State, net: Net)
    ensures Flush(s, net) ==
            if !s.Connected() || s.pending == [] then s
            else
              var t := Send(s.(pending := s.pending[1..]), s.pending[0], net);
              if !net(s.Attempts()) then t else Flush(t.(needToAuthenticate := false), net)
  {
  }

  // The public sendMail.
  function Submit(s: State, m: Mail, net: Net): State {
    var t := s.(submitted := s.submitted + [m]);
    if t.Connected() then Send(t, m, net)
    else
      var u := t.(pending := t.pending + [m]);
      if u.connectToPending then u else u.(connectToPending := true, dials := u.dials + 1)
  }

  // A connection that has just come up, before anything is sent on it.
  function Attach(s: State, fd: int): State {
    s.(online := s.online + {fd}, connections := s.connections + 1, connectToPending := false, connectedFd := Some(fd))
  }

  // onConnectionStateChanged
  function Up(s: State, fd: int, net: Net): State {
    Flush(Attach(s, fd), net)
  }

  function Down(s: State, fd: int): State {
    s.(online := s.online - {fd}, connectToPending := false, connectedFd := None, needToAuthenticate := true)
  }

  // ------------------------------------------------------------------- runs

  datatype Event = Submitted(mail: Mail) | WentUp(fd: int) | WentDown(fd: int)

  function Step(s: State, e: Event, net: Net): State {
    match e
    case Submitted(m) => Submit(s, m, net)
    case WentUp(fd) => Up(s, fd, net)
    case WentDown(fd) => Down(s, fd)
  }

  function Run(events: seq<Event>, net: Net): State {
    if events == [] then Initial()
    else Step(Run(events[..|events| - 1], net), events[|events| - 1], net)
  }

  function Mails(ds: seq<Delivery>): seq<Mail> {
    seq(|ds|, i requires 0 <= i < |ds| => ds[i].mail)
  }

  lemma MailsOfNext(ds: seq<Delivery>, d: Delivery)
    ensures Mails(ds + [d]) == Mails(ds) + [d.mail]
  {
  }

  // Every mail that was submitted is in exactly one place: sent, lost or waiting; as often
  // as it was submitted.
  ghost predicate Conserved(s: State) {
    Places(s) == multiset(s.submitted)
  }

  ghost function Places(s: State): multiset<Mail> {
    multiset(Mails(s.sent)) + multiset(s.lost) + multiset(s.pending)
  }

  // A socket that is in use is up, and a connection being set up has a mail to send.
  ghost predicate Sound(s: State) {
    (s.connectedFd.Some? ==> s.Connected()) && (s.connectToPending ==> s.pending != [] && !s.Connected())
  }

  // While no attempt has failed: what was sent, then what waits, is what was submitted, in
  // order, and nothing waits on a live connection.
  ghost predicate InOrder(s: State) {
    s.lost == [] ==> Mails(s.sent) + s.pending == s.submitted && (s.Connected() ==> s.pending == [])
  }

  lemma OneMore(ms: seq<Mail>, m: Mail)
    ensures multiset(ms + [m]) == multiset(ms) + multiset{m}
  {
  }

  lemma SendKeeps(s: State, m: Mail, net: Net)
    ensures Places(Send(s, m, net)) == Places(s) + multiset{m}
  {
    MailsOfNext(s.sent, Delivery(m, s.connections, s.needToAuthenticate));
    OneMore(Mails(s.sent), m);
    OneMore(s.lost, m);
    hide Mails;
  }

  lemma TakeFirst(s: State)
    requires s.pending != []
    ensures Places(s.(pending := s.pending[1..])) + multiset{s.pending[0]} == Places(s)
  {
    hide Mails;
    assert s.pending == [s.pending[0]] + s.pending[1..];
  }

  lemma {:induction false} FlushKeeps(s: State, net: Net)
    ensures Places(Flush(s, net)) == Places(s) && Flush(s, net).submitted == s.submitted
    ensures Flush(s, net).connectedFd == s.connectedFd && Flush(s, net).online == s.online
    ensures Flush(s, net).connectToPending == s.connectToPending
    decreases |s.pending|
  {
    if s.Connected() && s.pending != [] {
      var u := s.(pending := s.pending[1..]);
      var t := Send(u, s.pending[0], net);
      TakeFirst(s);
      SendKeeps(u, s.pending[0], net);
      assert Places(t.(needToAuthenticate := false)) == Places(t);
      hide Places;
      if net(s.Attempts()) { FlushKeeps(t.(needToAuthenticate := false), net); }
    }
  }

  lemma {:induction false} FlushInOrder(s: State, net: Net)
    requires s.lost == [] ==> Mails(s.sent) + s.pending == s.submitted
    ensures Flush(s, net).lost == [] ==> s.lost == []
    ensures InOrder(Flush(s, net)) || !s.Connected()
    decreases |s.pending|
  {
    if s.Connected() && s.pending != [] {
      var m, rest := s.pending[0], s.pending[1..];
      var t := Send(s.(pending := rest), m, net);
      if net(s.Attempts()) {
        MailsOfNext(s.sent, Delivery(m, s.connections, s.needToAuthenticate));
        assert Mails(s.sent) + s.pending == (Mails(s.sent) + [m]) + rest;
        FlushInOrder(t.(needToAuthenticate := false), net);
      }
    }
  }

  lemma SubmitKeeps(s: State, m: Mail, net: Net)
    requires Conserved(s) && Sound(s) && InOrder(s)
    ensures var t := Submit(s, m, net); Conserved(t) && Sound(t) && InOrder(t)
  {
    var t := s.(submitted := s.submitted + [m]);
    OneMore(s.submitted, m);
    if t.Connected() {
      SendKeeps(t, m, net);
      MailsOfNext(s.sent, Delivery(m, s.connections, s.needToAuthenticate));
      hide Mails;
      assert forall ms: seq<Mail> :: ms + [] == ms;
    } else {
      hide Mails;
      OneMore(s.pending, m);
      assert (Mails(s.sent) + s.pending) + [m] == Mails(s.sent) + (s.pending + [m]);
    }
  }

  lemma UpKeeps(s: State, fd: int, net: Net)
    requires Conserved(s) && Sound(s) && InOrder(s)
    ensures var t := Up(s, fd, net); Conserved(t) && Sound(t) && InOrder(t)
  {
    hide Flush, Mails;
    var t := Attach(s, fd);
    assert Places(t) == Places(s);
    FlushKeeps(t, net);
    FlushInOrder(t, net);
    var r := Flush(t, net);
    assert r == Up(s, fd, net) && r.Connected() && !r.connectToPending;
    hide Places, Up;
  }

  lemma StepKeeps(s: State, e: Event, net: Net)
    requires Conserved(s) && Sound(s) && InOrder(s)
    ensures var t := Step(s, e, net); Conserved(t) && Sound(t) && InOrder(t)
  {
    match e {
      case Submitted(m) =>
        SubmitKeeps(s, m, net);
      case WentUp(fd) =>
        UpKeeps(s, fd, net);
      case WentDown(fd) =>
        hide Mails;
    }
  }

  // Over any run, whatever fails: no mail is lost track of or sent twice, and as long as
  // nothing failed the mails sent are the first of those submitted and the rest waits.
  lemma {:induction false} MailOrder(events: seq<Event>, net: Net)
    ensures var s := Run(events, net); Conserved(s) && Sound(s) && InOrder(s)
    decreases |events|
  {
    if events != [] {
      MailOrder(events[..|events| - 1], net);
      StepKeeps(Run(events[..|events| - 1], net), events[|events| - 1], net);
    }
  }

  // One failed send while flushing is enough to break the order: with a lost, b waits on
  // the live connection while the later c goes out.
  lemma Overtaking(a: Mail, b: Mail, c: Mail, fd: int)
    ensures
      var net: Net := n => n > 0;
      var s := Run([Submitted(a), Submitted(b), WentUp(fd), Submitted(c)], net);
      s.lost == [a] && s.pending == [b] && Mails(s.sent) == [c] && s.Connected()
  {
    var net: Net := n => n > 0;
    var es := [Submitted(a), Submitted(b), WentUp(fd), Submitted(c)];
    assert es[..3] == [Submitted(a), Submitted(b), WentUp(fd)];
    assert es[..3][..2] == [Submitted(a), Submitted(b)];
    assert es[..3][..2][..1] == [Submitted(a)];
    var s1 := Submit(Initial(), a, net);
    var s2 := Submit(s1, b, net);
    var s3 := Up(s2, fd, net);
    assert Run([], net) == Initial() && Run([Submitted(a)], net) == s1;
    assert Run([Submitted(a), Submitted(b)], net) == s2 && s2.pending == [a, b];
    assert s3.pending == [b] && s3.lost == [a];
    assert Run(es[..3], net) == s3;
  }

  // ------------------------------------------------------------ the message

  const CRLF := "\r\n"

  function LogIn(a: Account): string {
    "AUTH LOGIN\r\n" + a.authName + CRLF + a.authPwd + CRLF
  }

  // The SMTP dialogue for one mail, as it goes over the wire.
  function Hello(a: Account, auth: bool): string {
    "EHLO " + a.host + CRLF + if auth then LogIn(a) else ""
  }

  function Envelope(m: Mail): string {
    "MAIL FROM:<" + m.src + ">\r\n" + "RCPT TO:<" + m.dst + ">\r\n" + "DATA\r\n"
  }

  function Headers(m: Mail): string {
    "SUBJECT:" + m.subject + CRLF + "From:" + m.src + CRLF + "To:" + m.dst + CRLF + CRLF
  }

  function Message(a: Account, m: Mail, auth: bool): string {
    Hello(a, auth) + Envelope(m) + Headers(m) + m.data + CRLF + "\r\n.\r\n"
  }

  // The size that is computed before the buffer is filled.
  function ContentSize(a: Account, m: Mail, auth: bool): nat {
    5 + |a.host| + 2
    + (if !auth then 0 else 10 + 2)
    + (if !auth then 0 else |a.authName| + 2)
    + (if !auth then 0 else |a.authPwd| + 2)
    + 11 + |m.src| + 1 + 2
    + 9 + |m.dst| + 1 + 2
    + 4 + 2
    + 8 + |m.subject| + 2
    + 5 + |m.src| + 2
    + 3 + |m.dst| + 2
    + 2
    + |m.data| + 2
    + 5
  }

  lemma SizeIsExact(a: Account, m: Mail, auth: bool)
    ensures ContentSize(a, m, auth) == |Message(a, m, auth)|
  {
    SizesLogIn(a);
    SizesEnvelope(m);
    SizesHeaders(m);
    hide LogIn, Envelope, Headers;
  }

  // memcpy to the buffer at nIndex, followed by the step of nIndex.
  method Copy(buffer: array<char>, index: nat, bytes: string) returns (next: nat)
    requires index + |bytes| <= buffer.Length
    modifies buffer
    ensures next == index + |bytes| && buffer[..next] == old(buffer[..index]) + bytes
  {
    forall i | 0 <= i < |bytes| {
      buffer[index + i] := bytes[i];
    }
    next := index + |bytes|;
  }

  // The same, when what precedes is already known as a text after `start`.
  method Append(buffer: array<char>, index: nat, bytes: string, ghost start: string, ghost text: string)
    returns (next: nat)
    requires index + |bytes| <= buffer.Length && buffer[..index] == start + text
    modifies buffer
    ensures next == index + |bytes| && buffer[..next] == start + (text + bytes)
  {
    TextJoins(start, text, bytes);
    next := Copy(buffer, index, bytes);
  }

  lemma SizesLogIn(a: Account)
    ensures |LogIn(a)| == 12 + |a.authName| + 2 + |a.authPwd| + 2
  {
  }

  lemma SizesEnvelope(m: Mail)
    ensures |Envelope(m)| == 11 + |m.src| + 3 + 9 + |m.dst| + 3 + 6
  {
  }

  lemma SizesHeaders(m: Mail)
    ensures |Headers(m)| == 8 + |m.subject| + 2 + 5 + |m.src| + 2 + 3 + |m.dst| + 2 + 2
  {
  }

  method CopyLogIn(buffer: array<char>, index: nat, a: Account) returns (next: nat)
    requires index + |LogIn(a)| <= buffer.Length
    modifies buffer
    ensures next == index + |LogIn(a)| && buffer[..next] == old(buffer[..index]) + LogIn(a)
  {
    SizesLogIn(a);
    ghost var start := buffer[..index];
    next := Copy(buffer, index, "AUTH LOGIN\r\n");
    next := Append(buffer, next, a.authName, start, "AUTH LOGIN\r\n");
    next := Append(buffer, next, CRLF, start, "AUTH LOGIN\r\n" + a.authName);
    next := Append(buffer, next, a.authPwd, start, "AUTH LOGIN\r\n" + a.authName + CRLF);
    next := Append(buffer, next, CRLF, start, "AUTH LOGIN\r\n" + a.authName + CRLF + a.authPwd);
  }

  method CopyEnvelope(buffer: array<char>, index: nat, m: Mail) returns (next: nat)
    requires index + |Envelope(m)| <= buffer.Length
    modifies buffer
    ensures next == index + |Envelope(m)| && buffer[..next] == old(buffer[..index]) + Envelope(m)
  {
    SizesEnvelope(m);
    ghost var start := buffer[..index];
    next := Copy(buffer, index, "MAIL FROM:<");
    next := Append(buffer, next, m.src, start, "MAIL FROM:<");
    next := Append(buffer, next, ">\r\n", start, "MAIL FROM:<" + m.src);
    next := Append(buffer, next, "RCPT TO:<", start, "MAIL FROM:<" + m.src + ">\r\n");
    next := Append(buffer, next, m.dst, start, "MAIL FROM:<" + m.src + ">\r\n" + "RCPT TO:<");
    next := Append(buffer, next, ">\r\n", start, "MAIL FROM:<" + m.src + ">\r\n" + "RCPT TO:<" + m.dst);
    next := Append(buffer, next, "DATA\r\n", start, "MAIL FROM:<" + m.src + ">\r\n" + "RCPT TO:<" + m.dst + ">\r\n");
  }

  method CopyHeaders(buffer: array<char>, index: nat, m: Mail) returns (next: nat)
    requires index + |Headers(m)| <= buffer.Length
    modifies buffer
    ensures next == index + |Headers(m)| && buffer[..next] == old(buffer[..index]) + Headers(m)
  {
    SizesHeaders(m);
    ghost var start := buffer[..index];
    next := Copy(buffer, index, "SUBJECT:");
    next := Append(buffer, next, m.subject, start, "SUBJECT:");
    next := Append(buffer, next, CRLF, start, "SUBJECT:" + m.subject);
    next := Append(buffer, next, "From:", start, "SUBJECT:" + m.subject + CRLF);
    next := Append(buffer, next, m.src, start, "SUBJECT:" + m.subject + CRLF + "From:");
    next := Append(buffer, next, CRLF, start, "SUBJECT:" + m.subject + CRLF + "From:" + m.src);
    next := Append(buffer, next, "To:", start, "SUBJECT:" + m.subject + CRLF + "From:" + m.src + CRLF);
    next := Append(buffer, next, m.dst, start, "SUBJECT:" + m.subject + CRLF + "From:" + m.src + CRLF + "To:");
    next := Append(buffer, next, CRLF, start, "SUBJECT:" + m.subject + CRLF + "From:" + m.src + CRLF + "To:" + m.dst);
    next := Append(buffer, next, CRLF, start,
        "SUBJECT:" + m.subject + CRLF + "From:" + m.src + CRLF + "To:" + m.dst + CRLF);
  }

  lemma HelloIs(a: Account, auth: bool)
    ensures var ehlo := "EHLO " + a.host + CRLF;
            && Hello(a, auth) == (if auth then ehlo + LogIn(a) else ehlo)
            && |Hello(a, auth)| == 5 + |a.host| + 2 + if auth then |LogIn(a)| else 0
  {
    var ehlo := "EHLO " + a.host + CRLF;
    hide LogIn;
    assert ehlo + "" == ehlo;
  }

  lemma TextJoins(start: string, text: string, more: string)
    ensures (start + text) + more == start + (text + more)
  {
  }

  method CopyHello(buffer: array<char>, index: nat, a: Account, auth: bool) returns (next: nat)
    requires index + |Hello(a, auth)| <= buffer.Length
    modifies buffer
    ensures next == index + |Hello(a, auth)| && buffer[..next] == old(buffer[..index]) + Hello(a, auth)
  {
    hide Hello, LogIn;
    HelloIs(a, auth);
    ghost var start := buffer[..index];
    next := Copy(buffer, index, "EHLO ");
    next := Append(buffer, next, a.host, start, "EHLO ");
    next := Append(buffer, next, CRLF, start, "EHLO " + a.host);
    if auth {
      TextJoins(start, "EHLO " + a.host + CRLF, LogIn(a));
      next := CopyLogIn(buffer, next, a);
    }
  }

  // The whole message, which takes exactly the computed size.
  method FillBuffer(buffer: array<char>, a: Account, m: Mail, auth: bool) returns (size: nat)
    requires ContentSize(a, m, auth) <= buffer.Length
    modifies buffer
    ensures size == ContentSize(a, m, auth) && buffer[..size] == Message(a, m, auth)
  {
    SizeIsExact(a, m, auth);
    hide Hello, Envelope, Headers;
    size := CopyHello(buffer, 0, a, auth);
    assert buffer[..0] + Hello(a, auth) == "" + Hello(a, auth);
    size := CopyEnvelope(buffer, size, m);
    assert ("" + Hello(a, auth)) + Envelope(m) == "" + (Hello(a, auth) + Envelope(m));
    size := CopyHeaders(buffer, size, m);
    assert ("" + (Hello(a, auth) + Envelope(m))) + Headers(m) == "" + (Hello(a, auth) + Envelope(m) + Headers(m));
    size := Append(buffer, size, m.data, "", Hello(a, auth) + Envelope(m) + Headers(m));
    size := Append(buffer, size, CRLF, "", Hello(a, auth) + Envelope(m) + Headers(m) + m.data);
    size := Append(buffer, size, "\r\n.\r\n", "", Hello(a, auth) + Envelope(m) + Headers(m) + m.data + CRLF);
    assert "" + Message(a, m, auth) == Message(a, m, auth);
  }

  // -------------------------------------------------------------- transport

  // The wire carried these deliveries, each as its whole message.
  ghost predicate Recorded(a: Account, wire: seq<(int, string)>, sent: seq<Delivery>) {
    |wire| == |sent| && forall i :: 0 <= i < |wire| ==> wire[i].1 == Message(a, sent[i].mail, sent[i].auth)
  }

  class MailTransport {
    const account: Account
    const net: Net
    var pending: seq<Mail>
    var connectToPending: bool
    var needToAuthenticate: bool
    var connectedFd: Option<int>
    var online: set<int>
    var tempBuffer: array<char>
    // Everything that went out, and through which socket.
    var wire: seq<(int, string)>
    var attempts: nat
    ghost var history: State

    constructor (account: Account, net: Net)
      ensures this.account == account && this.net == net
      ensures Valid() && fresh(tempBuffer) && history == Initial() && wire == []
    {
      this.account := account;
      this.net := net;
      pending, connectToPending, needToAuthenticate, connectedFd, online := [], false, true, None, {};
      tempBuffer := new char[0];
      wire, attempts, history := [], 0, Initial();
    }

    // The history ends in the present state, and the wire carried its deliveries.
    ghost predicate Valid()
      reads this
    {
      && history.pending == pending && history.connectToPending == connectToPending
      && history.needToAuthenticate == needToAuthenticate && history.connectedFd == connectedFd
      && history.online == online && history.Attempts() == attempts
      && Recorded(account, wire, history.sent)
    }

    predicate IsConnected()
      reads this
    {
      connectedFd.Some? && connectedFd.value in online
    }

    // The private sendMail.
    method SendNow(m: Mail) returns (ok: bool)
      requires Valid() && IsConnected()
      modifies this`wire, this`attempts, this`tempBuffer, this`history, tempBuffer
      ensures Valid() && history == Send(old(history), m, net) && ok == net(old(attempts))
      ensures tempBuffer == old(tempBuffer) || fresh(tempBuffer)
      ensures ok ==> wire == old(wire) + [(connectedFd.value, Message(account, m, needToAuthenticate))]
    {
      hide Message, ContentSize;
      ghost var h := Send(history, m, net);
      var contentSize := ContentSize(account, m, needToAuthenticate);
      if tempBuffer.Length < contentSize {
        tempBuffer := new char[contentSize];
      }
      var index := FillBuffer(tempBuffer, account, m, needToAuthenticate);
      ok := net(attempts);
      if ok {
        wire := wire + [(connectedFd.value, tempBuffer[..index])];
      }
      attempts := attempts + 1;
      history := h;
    }

    // One turn of the loop that follows.
    method SendFront() returns (sent: bool)
      requires Valid() && IsConnected() && pending != []
      modifies this`pending, this`needToAuthenticate, this`wire, this`attempts, this`tempBuffer, this`history,
          tempBuffer
      ensures Valid() && (tempBuffer == old(tempBuffer) || fresh(tempBuffer))
      ensures IsConnected() && pending == old(pending)[1..]
      ensures if sent then Flush(history, net) == Flush(old(history), net) && history.lost == old(history.lost)
              else history == Flush(old(history), net) && |history.lost| == |old(history.lost)| + 1
    {
      hide Recorded, Message, ContentSize, Flush;
      FlushStep(history, net);
      var m := pending[0];
      pending := pending[1..];
      history := history.(pending := pending);
      sent := SendNow(m);
      if sent {
        needToAuthenticate := false;
        history := history.(needToAuthenticate := false);
      }
    }

    method SendPendingMails() returns (ok: bool)
      requires Valid()
      modifies this`pending, this`needToAuthenticate, this`wire, this`attempts, this`tempBuffer, this`history,
          tempBuffer
      ensures Valid() && history == Flush(old(history), net)
      ensures tempBuffer == old(tempBuffer) || fresh(tempBuffer)
      ensures ok == (!IsConnected() || |history.lost| == |old(history.lost)|)
    {
      hide Recorded, Flush;
      ghost var goal, lost := Flush(history, net), history.lost;
      while IsConnected() && pending != []
        invariant Valid() && Flush(history, net) == goal && history.lost == lost
        invariant tempBuffer == old(tempBuffer) || fresh(tempBuffer)
        decreases |pending|
      {
        var sent := SendFront();
        if !sent { return false; }
      }
      FlushStep(history, net);
      ok := true;
    }

    // The public sendMail; `dialled` tells whether connecting could be started.
    method SendMail(dst: Option<string>, subject: string, data: string, src: Option<string>, dialled: bool)
      returns (ok: bool)
      requires Valid()
      modifies this`pending, this`connectToPending, this`wire, this`attempts, this`tempBuffer, this`history, tempBuffer
      ensures Valid() && (tempBuffer == old(tempBuffer) || fresh(tempBuffer))
      ensures
        if dst.None? || data == "" then !ok && history == old(history)
        else
          var m := Mail(if src.Some? then src.value else account.email, dst.value, subject, data);
          && history == Submit(old(history), m, net)
          && ok == (if old(IsConnected()) then net(old(attempts)) else old(connectToPending) || dialled)
    {
      hide Recorded, Message;
      if dst.None? || data == "" { return false; }
      var m := Mail(if src.Some? then src.value else account.email, dst.value, subject, data);
      history := history.(submitted := history.submitted + [m]);
      if !IsConnected() {
        pending := pending + [m];
        history := history.(pending := pending);
        if !connectToPending {
          connectToPending := true;
          history := history.(connectToPending := true, dials := history.dials + 1);
          return dialled;
        }
        return true;
      }
      ok := SendNow(m);
    }

    // onConnectionStateChanged, after the socket has entered or left the connected peers.
    method OnConnectionStateChanged(fd: int, connected: bool) returns (ok: bool)
      requires Valid()
      modifies this, tempBuffer
      ensures Valid() && (tempBuffer == old(tempBuffer) || fresh(tempBuffer))
      ensures history == if connected then Up(old(history), fd, net) else Down(old(history), fd)
    {
      hide Recorded, Flush;
      connectToPending := false;
      if connected {
        online := online + {fd};
        connectedFd := Some(fd);
        history := Attach(history, fd);
        ok := SendPendingMails();
      } else {
        online := online - {fd};
        connectedFd := None;
        needToAuthenticate := true;
        history := Down(history, fd);
        ok := true;
      }
    }
  }
}
