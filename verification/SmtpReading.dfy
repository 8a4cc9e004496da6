// What an SMTP server makes of the bytes that the mail service sends: a reading of the
// dialogue line by line, after section 3.3 of RFC 5321, and when it is the mail sent.

module SmtpReading {
  import opened Common
  import opened MailQueue
  import ActivationMail

  predicate LineEndsAt(s: string, i: nat) {
    i + 2 <= |s| && s[i] == '\r' && s[i + 1] == '\n'
  }

  ghost predicate IsLine(s: string) {
    forall i: nat :: !LineEndsAt(s, i)
  }

  // The text up to the first line end, and what follows it.
  function SplitLine(s: string): (r: Option<(string, string)>)
    ensures r.Some? ==> |r.value.1| < |s|
  {
    if s == "" then None
    else if LineEndsAt(s, 0) then Some(("", s[2..]))
    else
      match SplitLine(s[1..])
      case None => None
      case Some((line, rest)) => Some(([s[0]] + line, rest))
  }

  function Lines(s: string, n: nat): (r: Option<(seq<string>, string)>)
    ensures r.Some? ==> |r.value.0| == n
    decreases n
  {
    if n == 0 then Some(([], s))
    else
      match SplitLine(s)
      case None => None
      case Some((line, rest)) =>
        match Lines(rest, n - 1)
        case None => None
        case Some((lines, end)) => Some(([line] + lines, end))
  }

  // What stands after a prefix; and what stands before the first `c`.
  function After(s: string, prefix: string): Option<string> {
    if prefix <= s then Some(s[|prefix|..]) else None
  }

  function UpTo(s: string, c: char): string {
    if s == "" || s[0] == c then "" else [s[0]] + UpTo(s[1..], c)
  }

  function Address(line: string, verb: string): Option<string> {
    match After(line, verb + ":<")
    case None => None
    case Some(rest) => if '>' in rest then Some(UpTo(rest, '>')) else None
  }

  // The body ends at the first line that is a single dot.
  function Body(s: string): Option<(string, string)>
    decreases |s|
  {
    match SplitLine(s)
    case None => None
    case Some((line, rest)) =>
      if line == "." then Some(("", rest))
      else
        match Body(rest)
        case None => None
        case Some((more, end)) => Some((line + CRLF + more, end))
  }

  // What the server gets of one mail.
  datatype Received = Received(
    host: string, logIn: Option<(string, string)>, sender: string, recipient: string,
    subject: string, from: string, to: string, body: string)

  // After the greeting: the command that asks for a log-in takes two more lines.
  function ReadLogIn(s: string): Option<(Option<(string, string)>, string)> {
    match Lines(s, 1)
    case None => None
    case Some((line, rest)) =>
      if line[0] != "AUTH LOGIN" then Some((None, s))
      else
        match Lines(rest, 2)
        case None => None
        case Some((login, end)) => Some((Some((login[0], login[1])), end))
  }

  function Field(headers: seq<string>, name: string): Option<string> {
    if headers == [] then None
    else if After(headers[0], name).Some? then After(headers[0], name)
    else Field(headers[1..], name)
  }

  // The header lines up to the empty one.
  function ReadHeaders(s: string): Option<(seq<string>, string)>
    decreases |s|
  {
    match SplitLine(s)
    case None => None
    case Some((line, rest)) =>
      if line == "" then Some(([], rest))
      else
        match ReadHeaders(rest)
        case None => None
        case Some((lines, end)) => Some(([line] + lines, end))
  }

  // The three commands of a mail, its headers and its body.
  function ReadMail(host: string, logIn: Option<(string, string)>, s: string): Option<(Received, string)> {
    match Lines(s, 3)
    case None => None
    case Some((commands, data)) =>
      match (Address(commands[0], "MAIL FROM"), Address(commands[1], "RCPT TO"))
      case (Some(sender), Some(recipient)) =>
        if commands[2] != "DATA" then None
        else
          (match ReadHeaders(data)
           case None => None
           case Some((headers, text)) =>
             match (Body(text), Field(headers, "SUBJECT:"), Field(headers, "From:"), Field(headers, "To:"))
             case (Some((body, end)), Some(subject), Some(from), Some(to)) =>
               Some((Received(host, logIn, sender, recipient, subject, from, to, body), end))
             case _ => None)
      case _ => None
  }

  function Read(s: string): Option<(Received, string)> {
    match Lines(s, 1)
    case None => None
    case Some((greeting, rest)) =>
      match (After(greeting[0], "EHLO "), ReadLogIn(rest))
      case (Some(host), Some((logIn, mail))) => ReadMail(host, logIn, mail)
      case _ => None
  }

  // ------------------------------------------------------------------- lines

  lemma {:induction false} SplitIs(line: string, rest: string)
    requires IsLine(line)
    ensures SplitLine(line + CRLF + rest) == Some((line, rest))
    decreases |line|
  {
    var s := line + CRLF + rest;
    if line == "" {
      assert s[2..] == rest;
    } else {
      assert s[1..] == line[1..] + CRLF + rest;
      assert !LineEndsAt(line, 0) && (|line| == 1 ==> s[1] == '\r');
      forall i: nat ensures !LineEndsAt(line[1..], i) {
        assert !LineEndsAt(line, i + 1);
      }
      SplitIs(line[1..], rest);
      assert [line[0]] + line[1..] == line;
    }
  }

  lemma LinesAre(line: string, s: string, n: nat)
    requires IsLine(line) && Lines(s, n).Some?
    ensures Lines(line + CRLF + s, n + 1) == Some(([line] + Lines(s, n).value.0, Lines(s, n).value.1))
  {
    SplitIs(line, s);
  }

  // A text without line ends, put between two texts without them, has none either, if no
  // line end is made where they meet.
  lemma WithPrefix(prefix: string, s: string)
    requires IsLine(prefix) && IsLine(s) && (prefix == "" || prefix[|prefix| - 1] != '\r')
    ensures IsLine(prefix + s)
  {
    forall i: nat ensures !LineEndsAt(prefix + s, i) {
      assert !LineEndsAt(prefix, i);
      if i >= |prefix| { assert !LineEndsAt(s, i - |prefix|); }
    }
  }

  lemma WithSuffix(s: string, c: char)
    requires IsLine(s) && c != '\n'
    ensures IsLine(s + [c])
  {
    forall i: nat ensures !LineEndsAt(s + [c], i) {
      assert !LineEndsAt(s, i);
    }
  }

  lemma {:induction false} UpToIs(s: string, c: char, rest: string)
    requires c !in s
    ensures UpTo(s + [c] + rest, c) == s
    decreases |s|
  {
    var t := s + [c] + rest;
    if s != "" {
      assert t[0] == s[0] && t[1..] == s[1..] + [c] + rest;
      UpToIs(s[1..], c, rest);
    }
  }

  lemma AddressIs(verb: string, address: string)
    requires '>' !in address
    ensures Address(verb + ":<" + address + ">", verb) == Some(address)
  {
    var line, prefix := verb + ":<" + address + ">", verb + ":<";
    assert line == prefix + (address + ">") && line[|prefix|..] == address + ">";
    assert address + ">" == address + ['>'] + "";
    UpToIs(address, '>', "");
  }

  // -------------------------------------------------------------------- body

  // A line of the text that is a single dot.
  predicate DotLineAt(s: string, i: nat) {
    && i < |s| && s[i] == '.'
    && (i == 0 || (i >= 2 && LineEndsAt(s, i - 2)))
    && (i + 1 == |s| || LineEndsAt(s, i + 1))
  }

  ghost predicate HasDotLine(s: string) {
    exists i: nat :: DotLineAt(s, i)
  }

  lemma {:induction false} FirstLine(s: string) returns (line: string, more: string)
    requires !IsLine(s)
    ensures s == line + CRLF + more && IsLine(line)
    decreases |s|
  {
    if LineEndsAt(s, 0) {
      line, more := "", s[2..];
    } else {
      var i: nat :| LineEndsAt(s, i);
      assert LineEndsAt(s[1..], i - 1);
      var tail;
      tail, more := FirstLine(s[1..]);
      line := [s[0]] + tail;
      assert s == [s[0]] + s[1..];
      forall j: nat ensures !LineEndsAt(line, j) {
        if j > 0 { assert !LineEndsAt(tail, j - 1); } else { assert !LineEndsAt(s, 0); }
      }
    }
  }

  lemma DotLineOfLine(s: string)
    requires IsLine(s)
    ensures HasDotLine(s) <==> s == "."
  {
    if s == "." { assert DotLineAt(s, 0); }
    forall i: nat ensures DotLineAt(s, i) ==> s == "." {
      assert !LineEndsAt(s, i + 1);
      if i >= 2 { assert !LineEndsAt(s, i - 2); }
    }
  }

  lemma DotLineOfMore(line: string, more: string)
    requires IsLine(line)
    ensures HasDotLine(line + CRLF + more) <==> line == "." || HasDotLine(more)
  {
    var s, n := line + CRLF + more, |line| + 2;
    assert s[n..] == more;
    forall i: nat ensures DotLineAt(s, i) <==> (i == 0 && line == ".") || (i >= n && DotLineAt(more, i - n)) {
      DotLineIn(line, more, i);
    }
    if line == "." { assert DotLineAt(s, 0); }
    if HasDotLine(more) {
      var i: nat :| DotLineAt(more, i);
      assert DotLineAt(s, i + n);
    }
    hide DotLineAt;
  }

  lemma DotLineIn(line: string, more: string, i: nat)
    requires IsLine(line)
    ensures var s, n := line + CRLF + more, |line| + 2;
            DotLineAt(s, i) <==> (i == 0 && line == ".") || (i >= n && DotLineAt(more, i - n))
  {
    var s, n := line + CRLF + more, |line| + 2;
    forall j: nat ensures j + 2 <= |line| ==> !LineEndsAt(s, j) {
      if j + 2 <= |line| { assert !LineEndsAt(line, j); }
    }
    if i < n {
      assert s[|line|] == '\r' && s[|line| + 1] == '\n';
    } else {
      assert s[n - 2] == '\r' && s[n - 1] == '\n' && s[n..] == more;
      assert forall j :: n <= j < |s| ==> s[j] == more[j - n];
    }
  }

  function TextAfter(data: string, rest: string): string {
    data + CRLF + (CRLF + ("." + CRLF + rest))
  }

  lemma EndIs(rest: string)
    ensures Body(CRLF + ("." + CRLF + rest)) == Some((CRLF, rest))
  {
    var end := "." + CRLF + rest;
    SplitIs("", end);
    assert "" + CRLF + end == CRLF + end;
    SplitIs(".", rest);
    assert Body(end) == Some(("", rest));
    assert "" + CRLF + "" == CRLF;
  }

  // A text arrives whole, with the line ends that are put after it, exactly when none of
  // its lines is a single dot; otherwise the server takes its first part only.
  lemma {:induction false} BodyIff(data: string, rest: string)
    ensures Body(TextAfter(data, rest)).Some?
    ensures !HasDotLine(data) ==> Body(TextAfter(data, rest)) == Some((data + CRLF + CRLF, rest))
    ensures HasDotLine(data) ==> |Body(TextAfter(data, rest)).value.0| < |data|
    decreases |data|
  {
    var end := CRLF + ("." + CRLF + rest);
    if IsLine(data) {
      DotLineOfLine(data);
      SplitIs(data, end);
      EndIs(rest);
      hide IsLine, HasDotLine, SplitLine;
    } else {
      var line, more := FirstLine(data);
      DotLineOfMore(line, more);
      SplitIs(line, TextAfter(more, rest));
      assert TextAfter(data, rest) == line + CRLF + TextAfter(more, rest);
      BodyIff(more, rest);
      assert line + CRLF + (more + CRLF + CRLF) == data + CRLF + CRLF;
      hide IsLine, HasDotLine, SplitLine, TextAfter;
    }
  }

  // ----------------------------------------------------------------- dialogue

  // Texts that cannot be taken for anything else in the dialogue.
  ghost predicate CleanAddress(s: string) { IsLine(s) && '>' !in s }

  ghost predicate Clean(a: Account, m: Mail) {
    && IsLine(a.host) && IsLine(a.authName) && IsLine(a.authPwd)
    && CleanAddress(m.src) && CleanAddress(m.dst) && IsLine(m.subject)
  }

  lemma {:induction false} NoLineEnds(s: string)
    requires '\r' !in s
    ensures IsLine(s)
  {
  }

  // A line that is made of a fixed beginning and a text.
  lemma LineWith(prefix: string, s: string)
    requires '\r' !in prefix && IsLine(s)
    ensures IsLine(prefix + s)
  {
    NoLineEnds(prefix);
    WithPrefix(prefix, s);
  }

  lemma AddressLine(verb: string, s: string)
    requires '\r' !in verb && CleanAddress(s)
    ensures IsLine(verb + ":<" + s + ">") && Address(verb + ":<" + s + ">", verb) == Some(s)
  {
    LineWith(verb + ":<", s);
    WithSuffix(verb + ":<" + s, '>');
    AddressIs(verb, s);
  }

  lemma FieldLine(name: string, s: string)
    requires '\r' !in name && IsLine(s)
    ensures IsLine(name + s) && After(name + s, name) == Some(s)
  {
    LineWith(name, s);
  }

  lemma FieldsAre(subject: string, from: string, to: string)
    ensures var headers := ["SUBJECT:" + subject, "From:" + from, "To:" + to];
            && Field(headers, "SUBJECT:") == Some(subject) && Field(headers, "From:") == Some(from)
            && Field(headers, "To:") == Some(to)
  {
    var h1, h2, h3 := "SUBJECT:" + subject, "From:" + from, "To:" + to;
    assert h1[0] == 'S' && h2[0] == 'F' && h3[0] == 'T' && "From:"[0] == 'F' && "To:"[0] == 'T';
    assert After(h1, "SUBJECT:") == Some(subject) && After(h2, "From:") == Some(from) && After(h3, "To:") == Some(to);
    assert After(h1, "From:") == After(h1, "To:") == After(h2, "To:") == None;
    hide After;
    assert [h1, h2, h3][1..] == [h2, h3] && [h2, h3][1..] == [h3];
    assert Field([h3], "To:") == Some(to) && Field([h2, h3], "To:") == Some(to);
    assert Field([h2, h3], "From:") == Some(from);
  }

  lemma HeadersRead(m: Mail, text: string)
    requires CleanAddress(m.src) && CleanAddress(m.dst) && IsLine(m.subject)
    ensures ReadHeaders(Headers(m) + text) == Some((["SUBJECT:" + m.subject, "From:" + m.src, "To:" + m.dst], text))
  {
    var l1, l2, l3 := "SUBJECT:" + m.subject, "From:" + m.src, "To:" + m.dst;
    FieldLine("SUBJECT:", m.subject);
    FieldLine("From:", m.src);
    FieldLine("To:", m.dst);
    hide IsLine;
    var t4 := CRLF + text;
    var t3 := l3 + CRLF + t4;
    var t2 := l2 + CRLF + t3;
    HeadersAre(m, text);
    hide Headers;
    OneHeader(l1, t2);
    OneHeader(l2, t3);
    OneHeader(l3, t4);
    LastHeader(text);
    assert [l1] + ([l2] + ([l3] + [])) == [l1, l2, l3];
    hide ReadHeaders;
  }

  lemma HeadersAre(m: Mail, text: string)
    ensures Headers(m) + text ==
            ("SUBJECT:" + m.subject) + CRLF + (("From:" + m.src) + CRLF + (("To:" + m.dst) + CRLF + (CRLF + text)))
  {
  }

  lemma OneHeader(line: string, rest: string)
    requires IsLine(line) && line != ""
    ensures ReadHeaders(line + CRLF + rest) ==
            match ReadHeaders(rest)
            case None => None
            case Some((lines, end)) => Some(([line] + lines, end))
  {
    SplitIs(line, rest);
    hide SplitLine, IsLine;
  }

  lemma LastHeader(text: string)
    ensures ReadHeaders(CRLF + text) == Some(([], text))
  {
    SplitIs("", text);
    assert "" + CRLF + text == CRLF + text;
    hide SplitLine, IsLine;
  }

  lemma CommandsRead(m: Mail, data: string)
    requires CleanAddress(m.src) && CleanAddress(m.dst)
    ensures Lines(Envelope(m) + data, 3) ==
            Some((["MAIL FROM:<" + m.src + ">", "RCPT TO:<" + m.dst + ">", "DATA"], data))
  {
    var l1, l2, l3 := "MAIL FROM:<" + m.src + ">", "RCPT TO:<" + m.dst + ">", "DATA";
    AddressLine("MAIL FROM", m.src);
    AddressLine("RCPT TO", m.dst);
    assert "MAIL FROM" + ":<" == "MAIL FROM:<" && "RCPT TO" + ":<" == "RCPT TO:<";
    NoLineEnds(l3);
    hide IsLine;
    assert Lines(data, 0) == Some(([], data));
    LinesAre(l3, data, 0);
    LinesAre(l2, l3 + CRLF + data, 1);
    LinesAre(l1, l2 + CRLF + (l3 + CRLF + data), 2);
    EnvelopeIs(m, data);
    assert [l1] + ([l2] + ([l3] + [])) == [l1, l2, l3];
    hide Lines;
  }

  lemma EnvelopeIs(m: Mail, data: string)
    ensures Envelope(m) + data ==
            ("MAIL FROM:<" + m.src + ">") + CRLF + (("RCPT TO:<" + m.dst + ">") + CRLF + ("DATA" + CRLF + data))
  {
    assert ">" + CRLF == ">\r\n" && "DATA" + CRLF == "DATA\r\n";
  }

  // What the server gets of a mail from its envelope on.
  function Sent(a: Account, m: Mail, auth: bool): Received {
    Received(a.host, if auth then Some((a.authName, a.authPwd)) else None,
             m.src, m.dst, m.subject, m.src, m.dst, m.data + CRLF + CRLF)
  }

  // The mail from its envelope on, as it stands in the message.
  function FromEnvelope(m: Mail, rest: string): string {
    Envelope(m) + (Headers(m) + TextAfter(m.data, rest))
  }

  lemma MailRead(a: Account, m: Mail, auth: bool, rest: string)
    requires Clean(a, m)
    ensures var r := ReadMail(a.host, Sent(a, m, auth).logIn, FromEnvelope(m, rest));
            && r.Some?
            && (!HasDotLine(m.data) ==> r == Some((Sent(a, m, auth), rest)))
            && (HasDotLine(m.data) ==> |r.value.0.body| < |m.data|)
  {
    hide IsLine, HasDotLine, Lines, ReadHeaders, Body, TextAfter, Envelope, Headers, Field;
    var text := TextAfter(m.data, rest);
    CommandsRead(m, Headers(m) + text);
    AddressLine("MAIL FROM", m.src);
    AddressLine("RCPT TO", m.dst);
    assert "MAIL FROM" + ":<" == "MAIL FROM:<" && "RCPT TO" + ":<" == "RCPT TO:<";
    HeadersRead(m, text);
    FieldsAre(m.subject, m.src, m.dst);
    BodyIff(m.data, rest);
    hide Address;
  }

  lemma HelloRead(a: Account, auth: bool, mail: string)
    requires IsLine(a.host) && IsLine(a.authName) && IsLine(a.authPwd)
    requires Lines(mail, 1).Some? && Lines(mail, 1).value.0[0] != "AUTH LOGIN"
    ensures Read(Hello(a, auth) + mail) ==
            ReadMail(a.host, if auth then Some((a.authName, a.authPwd)) else None, mail)
  {
    var ehlo, login := "EHLO " + a.host, "AUTH LOGIN";
    FieldLine("EHLO ", a.host);
    NoLineEnds(login);
    var after := if auth then login + CRLF + (a.authName + CRLF + (a.authPwd + CRLF + mail)) else mail;
    HelloIs(a, auth, mail);
    assert Lines(after, 0) == Some(([], after)) && Lines(mail, 0) == Some(([], mail));
    LinesAre(ehlo, after, 0);
    assert [ehlo] + [] == [ehlo] && [login] + [] == [login];
    if auth {
      var more := a.authName + CRLF + (a.authPwd + CRLF + mail);
      assert Lines(more, 0) == Some(([], more));
      LinesAre(login, more, 0);
      LinesAre(a.authPwd, mail, 0);
      LinesAre(a.authName, a.authPwd + CRLF + mail, 1);
      assert [a.authName] + ([a.authPwd] + []) == [a.authName, a.authPwd];
    }
    hide Lines, ReadMail, IsLine;
  }

  lemma HelloIs(a: Account, auth: bool, mail: string)
    ensures Hello(a, auth) + mail ==
            ("EHLO " + a.host) + CRLF +
            if auth then "AUTH LOGIN" + CRLF + (a.authName + CRLF + (a.authPwd + CRLF + mail)) else mail
  {
    assert "AUTH LOGIN" + CRLF == "AUTH LOGIN\r\n";
  }

  // The bytes of one mail, sent on a connection that goes on with others: with texts that
  // are clean the server reads who sends it, to whom, its headers, and the log-in exactly
  // if there is one; and it reads the whole text if and only if no line of that is a single
  // dot, which the service does not take care of.
  lemma MessageIsReadIff(a: Account, m: Mail, auth: bool, rest: string)
    requires Clean(a, m)
    ensures Read(Message(a, m, auth) + rest) == Some((Sent(a, m, auth), rest)) <==> !HasDotLine(m.data)
  {
    var mail := FromEnvelope(m, rest);
    MessageIs(a, m, auth, rest);
    FirstCommand(m, rest);
    hide Hello, Message, FromEnvelope, HasDotLine, IsLine, Lines, Read, ReadMail;
    HelloRead(a, auth, mail);
    MailRead(a, m, auth, rest);
  }

  lemma FirstCommand(m: Mail, rest: string)
    requires CleanAddress(m.src) && CleanAddress(m.dst)
    ensures var mail := FromEnvelope(m, rest);
            Lines(mail, 1).Some? && Lines(mail, 1).value.0[0] != "AUTH LOGIN"
  {
    var line, data := "MAIL FROM:<" + m.src + ">", Headers(m) + TextAfter(m.data, rest);
    AddressLine("MAIL FROM", m.src);
    assert "MAIL FROM" + ":<" == "MAIL FROM:<";
    EnvelopeIs(m, data);
    var more := ("RCPT TO:<" + m.dst + ">") + CRLF + ("DATA" + CRLF + data);
    assert Lines(more, 0) == Some(([], more));
    LinesAre(line, more, 0);
    assert line[0] == 'M' && "AUTH LOGIN"[0] == 'A';
    hide Lines, IsLine;
  }

  lemma MessageIs(a: Account, m: Mail, auth: bool, rest: string)
    ensures Message(a, m, auth) + rest == Hello(a, auth) + FromEnvelope(m, rest)
  {
    hide Hello, Envelope, Headers;
    var h, e, f := Hello(a, auth), Envelope(m), Headers(m);
    assert "\r\n.\r\n" == CRLF + ("." + CRLF);
    Regrouped(h, e, f, m.data + CRLF + "\r\n.\r\n", rest);
    assert h + e + f + m.data + CRLF + "\r\n.\r\n" == h + e + f + (m.data + CRLF + "\r\n.\r\n");
    assert (m.data + CRLF + "\r\n.\r\n") + rest == TextAfter(m.data, rest);
  }

  lemma Regrouped(a: string, b: string, c: string, d: string, e: string)
    ensures (a + b + c + d) + e == a + (b + (c + (d + e)))
  {
  }

  // ------------------------------------------------------------ a connection

  function Wire(a: Account, ds: seq<Delivery>): string {
    if ds == [] then "" else Message(a, ds[0].mail, ds[0].auth) + Wire(a, ds[1..])
  }

  function ReadAll(s: string, n: nat): Option<(seq<Received>, string)>
    decreases n
  {
    if n == 0 then Some(([], s))
    else
      match Read(s)
      case None => None
      case Some((first, rest)) =>
        match ReadAll(rest, n - 1)
        case None => None
        case Some((more, end)) => Some(([first] + more, end))
  }

  function AllSent(a: Account, ds: seq<Delivery>): seq<Received> {
    seq(|ds|, i requires 0 <= i < |ds| => Sent(a, ds[i].mail, ds[i].auth))
  }

  // All that goes out on a connection is read as those very mails, one after the other,
  // each with a log-in or without as it was sent.
  lemma {:induction false} ConnectionIsRead(a: Account, ds: seq<Delivery>)
    requires forall d :: d in ds ==> Clean(a, d.mail) && !HasDotLine(d.mail.data)
    ensures ReadAll(Wire(a, ds), |ds|) == Some((AllSent(a, ds), ""))
    decreases |ds|
  {
    hide Clean, HasDotLine, Read, Message, Sent;
    if ds != [] {
      assert ds[0] in ds;
      MessageIsReadIff(a, ds[0].mail, ds[0].auth, Wire(a, ds[1..]));
      ConnectionIsRead(a, ds[1..]);
      assert AllSent(a, ds) == [Sent(a, ds[0].mail, ds[0].auth)] + AllSent(a, ds[1..]);
    }
  }

  // -------------------------------------------------------- activation mails

  lemma SubjectIsLine()
    ensures IsLine(ActivationMail.SUBJECT)
  {
    NoLineEnds(ActivationMail.SUBJECT);
  }

  lemma TextIsLong(l: ActivationMail.Letter, email64: string)
    ensures |ActivationMail.Text(l, email64)| > 1
  {
    hide ActivationMail.CodeText, ActivationMail.AddressText, ActivationMail.PasswordText, ActivationMail.StepsText;
  }

  // What the server and the recipient get of a letter.
  ghost predicate Arrives(a: Account, l: ActivationMail.Letter, email64: string, auth: bool, r: Received) {
    && r.sender == a.email && r.recipient == l.to && r.subject == ActivationMail.SUBJECT
    && r.logIn == (if auth then Some((a.authName, a.authPwd)) else None)
    && ActivationMail.TellsAt(r.body, ActivationMail.CodeAt(l), l.code)
    && ActivationMail.TellsAt(r.body, ActivationMail.PasswordAt(l, email64), l.password)
  }

  function MailOf(a: Account, post: ActivationMail.Post): Mail {
    Mail(a.email, post.to, post.subject, post.text)
  }

  // From an addition to the mailbox: the server is told to deliver to the address that was
  // added, and the recipient finds the code and the password in the text.
  lemma ActivationMailArrives(
      a: Account, l: ActivationMail.Letter, encode: string -> string, auth: bool, rest: string)
    requires IsLine(a.host) && IsLine(a.authName) && IsLine(a.authPwd) && CleanAddress(a.email) && CleanAddress(l.to)
    requires '\r' !in ActivationMail.PostOf(l, encode).text && '\'' !in l.code && '\'' !in l.password
    ensures var r := Read(Message(a, MailOf(a, ActivationMail.PostOf(l, encode)), auth) + rest);
            r.Some? && r.value.1 == rest && Arrives(a, l, encode(l.to), auth, r.value.0)
  {
    hide IsLine, Message, Read, HasDotLine, ActivationMail.Text, ActivationMail.TellsAt;
    hide ActivationMail.CodeAt, ActivationMail.PasswordAt;
    var email64 := encode(l.to);
    var text := ActivationMail.Text(l, email64);
    var m := MailOf(a, ActivationMail.PostOf(l, encode));
    SubjectIsLine();
    NoLineEnds(text);
    TextIsLong(l, email64);
    DotLineOfLine(text);
    MessageIsReadIff(a, m, auth, rest);
    ActivationMail.TextTells(l, email64, CRLF + CRLF);
    assert text + CRLF + CRLF == text + (CRLF + CRLF);
  }
}
