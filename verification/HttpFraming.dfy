// The loop that cuts HTTP requests out of a peer's stream buffer, for messages framed by
// Content-Length (section 4.4 of RFC 2616). The header parser is a parameter.

module HttpFraming {
  import opened Common

  // What the header parser reports of a block that ends with an empty line.
  datatype Head = Head(isRequest: bool, verb: string, contentType: Option<string>, contentLength: nat)

  type Parser = string -> Option<Head>

  datatype Request = Request(head: Head, content: string)

  // What stands at the front of a buffer.
  datatype Step = NeedMore | BadHeaders(size: nat) | Complete(request: Request, size: nat)

  const MIN_CHUNK := 0x32
  const MAX_BUFFER := 0xFFFF
  const TWO_64: int := 0x1_0000_0000_0000_0000

  // tsk_strindexOf for the empty line
  function IndexOf(buf: string, from: nat): (r: Option<nat>)
    requires from <= |buf|
    ensures r.Some? ==> from <= r.value && r.value + 4 <= |buf| && buf[r.value..r.value + 4] == "\r\n\r\n"
    decreases |buf| - from
  {
    if from + 4 > |buf| then None
    else if buf[from..from + 4] == "\r\n\r\n" then Some(from)
    else IndexOf(buf, from + 1)
  }

  function FirstStep(buf: string, parse: Parser): (s: Step)
    ensures !s.NeedMore? ==> 4 <= s.size <= |buf|
  {
    match IndexOf(buf, 0)
    case None => NeedMore
    case Some(end) =>
      match parse(buf[..end + 4])
      case None => BadHeaders(end + 4)
      case Some(head) =>
        var size := end + 4 + head.contentLength;
        if size > |buf| then NeedMore else Complete(Request(head, buf[end + 4..size]), size)
  }

  // The reference framing of a whole stream; header blocks that do not parse are dropped.
  function Frames(buf: string, parse: Parser): seq<Request>
    decreases |buf|
  {
    match FirstStep(buf, parse)
    case NeedMore => []
    case BadHeaders(n) => Frames(buf[n..], parse)
    case Complete(request, n) => [request] + Frames(buf[n..], parse)
  }

  // What is left of a stream after its frames.
  function Remainder(buf: string, parse: Parser): string
    decreases |buf|
  {
    match FirstStep(buf, parse)
    case NeedMore => buf
    case BadHeaders(n) => Remainder(buf[n..], parse)
    case Complete(_, n) => Remainder(buf[n..], parse)
  }

  // Subtraction of size_t values.
  function SizeSub(a: nat, b: nat): nat { (a - b) % TWO_64 }

  // What onData does to a buffer of which `consumed` bytes are already taken: the requests
  // that it handles from there on, and how much is consumed in the end. The test for
  // another turn subtracts all that is consumed from what was left before this turn.
  function Turns(buf: string, consumed: nat, parse: Parser): (r: (seq<Request>, nat))
    requires consumed <= |buf|
    ensures consumed <= r.1 <= |buf|
    decreases |buf| - consumed
  {
    match FirstStep(buf[consumed..], parse)
    case NeedMore => ([], consumed)
    case BadHeaders(n) => ([], consumed + n)
    case Complete(request, n) =>
      if SizeSub(|buf| - consumed, consumed + n) >= MIN_CHUNK then
        var (more, end) := Turns(buf, consumed + n, parse);
        ([request] + more, end)
      else ([request], consumed + n)
  }

  // --------------------------------------------------------------- messages

  const EMPTY_LINE := "\r\n\r\n"

  predicate EmptyLineAt(s: string, i: nat) {
    i + 4 <= |s| && s[i..i + 4] == EMPTY_LINE
  }

  // A header block: it ends with its only empty line.
  ghost predicate IsHeaderBlock(h: string) {
    |h| >= 4 && forall i: nat :: EmptyLineAt(h, i) <==> i == |h| - 4
  }

  ghost predicate HasEmptyLine(buf: string) {
    exists i: nat :: EmptyLineAt(buf, i)
  }

  lemma {:induction false} IndexIsFirst(buf: string, from: nat, at: nat)
    requires from <= at && EmptyLineAt(buf, at)
    requires forall i :: from <= i < at ==> !EmptyLineAt(buf, i)
    ensures IndexOf(buf, from) == Some(at)
    decreases at - from
  {
    if from < at {
      assert !EmptyLineAt(buf, from);
      IndexIsFirst(buf, from + 1, at);
    }
  }

  lemma HeaderBlockEnds(h: string, rest: string)
    requires IsHeaderBlock(h)
    ensures IndexOf(h + rest, 0) == Some(|h| - 4) && (h + rest)[..|h|] == h
  {
    var buf, at := h + rest, |h| - 4;
    assert EmptyLineAt(h, at) && buf[at..at + 4] == h[at..at + 4];
    forall i | 0 <= i < at ensures !EmptyLineAt(buf, i) {
      assert !EmptyLineAt(h, i) && buf[i..i + 4] == h[i..i + 4];
    }
    IndexIsFirst(buf, 0, at);
  }

  // What stands at the front of any buffer that begins with a header block: the block is
  // given to the parser as it is, and the content is the bytes right after it, as many as
  // the header says.
  lemma FrontOfBuffer(h: string, rest: string, parse: Parser)
    requires IsHeaderBlock(h)
    ensures FirstStep(h + rest, parse) ==
            match parse(h)
            case None => BadHeaders(|h|)
            case Some(head) =>
              if |rest| < head.contentLength then NeedMore
              else Complete(Request(head, rest[..head.contentLength]), |h| + head.contentLength)
  {
    HeaderBlockEnds(h, rest);
    var head := parse(h);
    if head.Some? && head.value.contentLength <= |rest| {
      assert (h + rest)[|h|..|h| + head.value.contentLength] == rest[..head.value.contentLength];
    }
    hide IndexOf;
  }

  // And more bytes are needed exactly when there is no empty line yet, or a block that
  // parses with too few bytes after it.
  lemma NoHeaderBlock(buf: string, parse: Parser)
    requires !HasEmptyLine(buf)
    ensures FirstStep(buf, parse) == NeedMore
  {
    if IndexOf(buf, 0).Some? { assert EmptyLineAt(buf, IndexOf(buf, 0).value); }
  }

  // A message as a client sends it.
  datatype Message = Message(header: string, body: string)

  ghost predicate IsMessage(m: Message, parse: Parser) {
    IsHeaderBlock(m.header) && parse(m.header).Some? && |m.body| == parse(m.header).value.contentLength
  }

  function Bytes(ms: seq<Message>): string {
    if ms == [] then "" else ms[0].header + ms[0].body + Bytes(ms[1..])
  }

  ghost function RequestOf(m: Message, parse: Parser): Request
    requires IsMessage(m, parse)
  {
    Request(parse(m.header).value, m.body)
  }

  ghost function Requests(ms: seq<Message>, parse: Parser): seq<Request>
    requires forall m :: m in ms ==> IsMessage(m, parse)
  {
    if ms == [] then []
    else
      assert IsMessage(ms[0], parse);
      [RequestOf(ms[0], parse)] + Requests(ms[1..], parse)
  }

  lemma MessageIsFramed(m: Message, rest: string, parse: Parser)
    requires IsMessage(m, parse)
    ensures var s := FirstStep(m.header + m.body + rest, parse);
            && s == Complete(RequestOf(m, parse), |m.header| + |m.body|)
            && (m.header + m.body + rest)[s.size..] == rest
  {
    var h, after := m.header, m.body + rest;
    assert h + m.body + rest == h + after;
    assert after[..|m.body|] == m.body && after[|m.body|..] == rest;
    hide IsHeaderBlock, FirstStep;
    FrontOfBuffer(h, after, parse);
  }

  // Messages sent one after the other are framed as those very messages, each with its own
  // content, whatever follows them.
  lemma {:induction false} MessagesAreFramed(ms: seq<Message>, rest: string, parse: Parser)
    requires forall m :: m in ms ==> IsMessage(m, parse)
    ensures Frames(Bytes(ms) + rest, parse) == Requests(ms, parse) + Frames(rest, parse)
    ensures Remainder(Bytes(ms) + rest, parse) == Remainder(rest, parse)
    decreases |ms|
  {
    hide FirstStep, IsMessage, Frames, Remainder;
    if ms == [] {
      assert "" + rest == rest;
      assert [] + Frames(rest, parse) == Frames(rest, parse);
    } else {
      var m, after := ms[0], Bytes(ms[1..]) + rest;
      assert IsMessage(m, parse);
      MessageIsFramed(m, after, parse);
      MessagesAreFramed(ms[1..], rest, parse);
      BytesFrom(ms, rest);
      FramesNext(m.header + m.body + after, parse);
      Prepend(RequestOf(m, parse), Requests(ms[1..], parse), Frames(rest, parse));
    }
  }

  lemma BytesFrom(ms: seq<Message>, rest: string)
    requires ms != []
    ensures Bytes(ms) + rest == ms[0].header + ms[0].body + (Bytes(ms[1..]) + rest)
  {
  }

  lemma Prepend(r: Request, rs: seq<Request>, more: seq<Request>)
    ensures [r] + (rs + more) == ([r] + rs) + more
  {
  }

  lemma FramesNext(buf: string, parse: Parser)
    ensures FirstStep(buf, parse).Complete? ==>
              var s := FirstStep(buf, parse);
              && Frames(buf, parse) == [s.request] + Frames(buf[s.size..], parse)
              && Remainder(buf, parse) == Remainder(buf[s.size..], parse)
  {
    hide FirstStep;
  }

  // ----------------------------------------------------------------- frames

  lemma {:induction false} IndexOfStable(buf: string, more: string, from: nat)
    requires from <= |buf|
    ensures IndexOf(buf, from).Some? ==> IndexOf(buf + more, from) == IndexOf(buf, from)
    decreases |buf| - from
  {
    if from + 4 <= |buf| {
      assert (buf + more)[from..from + 4] == buf[from..from + 4];
      if buf[from..from + 4] != "\r\n\r\n" { IndexOfStable(buf, more, from + 1); }
    }
  }

  // Bytes that arrive later do not change what is already complete at the front.
  lemma StepStable(buf: string, more: string, parse: Parser)
    ensures var s := FirstStep(buf, parse);
            !s.NeedMore? ==> FirstStep(buf + more, parse) == s && (buf + more)[s.size..] == buf[s.size..] + more
  {
    hide IndexOf;
    IndexOfStable(buf, more, 0);
    var i, s := IndexOf(buf, 0), FirstStep(buf, parse);
    if !s.NeedMore? {
      SliceStays(buf, more, 0, i.value + 4);
      SliceStays(buf, more, i.value + 4, s.size);
    }
  }

  lemma SliceStays(buf: string, more: string, from: nat, to: nat)
    requires from <= to <= |buf|
    ensures (buf + more)[from..to] == buf[from..to] && (buf + more)[..to] == buf[..to]
    ensures (buf + more)[to..] == buf[to..] + more
  {
  }

  // Framing can be done as the bytes come: first what is complete, later the rest.
  lemma {:induction false} FramesOfMore(buf: string, more: string, parse: Parser)
    ensures Frames(buf + more, parse) == Frames(buf, parse) + Frames(Remainder(buf, parse) + more, parse)
    ensures Remainder(buf + more, parse) == Remainder(Remainder(buf, parse) + more, parse)
    decreases |buf|
  {
    StepStable(buf, more, parse);
    var s := FirstStep(buf, parse);
    if !s.NeedMore? { FramesOfMore(buf[s.size..], more, parse); }
  }

  lemma DropTwice(buf: string, a: nat, b: nat)
    requires a + b <= |buf|
    ensures buf[a..][b..] == buf[a + b..] && buf[0..] == buf
  {
  }

  // Handled requests and buffer left, together, are the frames of the buffer before.
  lemma {:induction false} TurnsKeepFrames(buf: string, consumed: nat, parse: Parser)
    requires consumed <= |buf|
    ensures var (handled, end) := Turns(buf, consumed, parse);
            && Frames(buf[consumed..], parse) == handled + Frames(buf[end..], parse)
            && Remainder(buf[consumed..], parse) == Remainder(buf[end..], parse)
    decreases |buf| - consumed
  {
    hide FirstStep, SizeSub;
    var s := FirstStep(buf[consumed..], parse);
    if !s.NeedMore? {
      DropTwice(buf, consumed, s.size);
      if s.Complete? { TurnsKeepFrames(buf, consumed + s.size, parse); }
    }
  }

  // The test before another turn, on buffers of the size that the transport allows: it
  // fails although requests may follow exactly when what follows is at least as long as
  // what was consumed before this turn, by less than the minimum.
  lemma AnotherTurnIff(size: nat, before: nat, n: nat)
    requires before + n <= size <= MAX_BUFFER
    ensures var follows := size - before - n;
            SizeSub(size - before, before + n) >= MIN_CHUNK <==> !(before <= follows < before + 50)
  {
  }

  // A complete request at the front is handled by the very next data event, so a stream
  // that goes on is never stuck.
  lemma FrontIsHandled(buf: string, parse: Parser)
    requires FirstStep(buf, parse).Complete?
    ensures var (handled, end) := Turns(buf, 0, parse);
            handled != [] && handled[0] == FirstStep(buf, parse).request && end > 0
  {
    assert buf[0..] == buf;
  }

  // Of three requests in the buffer the last waits for another event when it is a little
  // longer than the first, however complete it is.
  lemma ThirdRequestWaits(buf: string, parse: Parser, first: Step, second: Step, third: Step)
    requires |buf| <= MAX_BUFFER
    requires first.Complete? && first == FirstStep(buf, parse)
    requires second.Complete? && second == FirstStep(buf[first.size..], parse)
    requires third.Complete? && third == FirstStep(buf[first.size + second.size..], parse)
    requires |buf| == first.size + second.size + third.size
    requires first.size <= third.size < first.size + MIN_CHUNK && second.size + third.size >= MIN_CHUNK
    ensures Turns(buf, 0, parse) == ([first.request, second.request], first.size + second.size)
    ensures Frames(buf[first.size + second.size..], parse) == [third.request]
  {
    hide FirstStep, SizeSub, Turns;
    var a, b := first.size, first.size + second.size;
    DropTwice(buf, 0, 0);
    DropTwice(buf, b, third.size);
    AnotherTurnIff(|buf|, 0, first.size);
    AnotherTurnIff(|buf|, a, second.size);
    TurnStep(buf, 0, parse);
    TurnStep(buf, a, parse);
    NothingYet(parse);
    assert buf[b..][third.size..] == "";
    assert [third.request] + [] == [third.request];
    assert [first.request] + [second.request] == [first.request, second.request];
  }

  // One turn, by what it finds.
  lemma TurnStep(buf: string, consumed: nat, parse: Parser)
    requires consumed <= |buf|
    ensures var s := FirstStep(buf[consumed..], parse);
            Turns(buf, consumed, parse) ==
            if s.NeedMore? then ([], consumed)
            else if s.BadHeaders? || SizeSub(|buf| - consumed, consumed + s.size) < MIN_CHUNK then
              (if s.Complete? then [s.request] else [], consumed + s.size)
            else
              ([s.request] + Turns(buf, consumed + s.size, parse).0, Turns(buf, consumed + s.size, parse).1)
  {
    hide FirstStep, SizeSub;
  }

  // Where the reference framing stands after n steps.
  function After(buf: string, n: nat, parse: Parser): (r: Option<nat>)
    ensures r.Some? ==> r.value <= |buf|
  {
    if n == 0 then Some(0)
    else
      match After(buf, n - 1, parse)
      case None => None
      case Some(p) =>
        var s := FirstStep(buf[p..], parse);
        if s.NeedMore? then None else Some(p + s.size)
  }

  // The n-th step ends the loop: a header block that does not parse, or a request followed
  // by at least as much as was consumed before it, and less than the minimum more.
  predicate Stops(buf: string, n: nat, parse: Parser) {
    After(buf, n + 1, parse).Some?
    && var p, next := After(buf, n, parse).value, After(buf, n + 1, parse).value;
       FirstStep(buf[p..], parse).BadHeaders? || p <= |buf| - next < p + MIN_CHUNK
  }

  predicate MoreAfter(buf: string, n: nat, parse: Parser) {
    After(buf, n, parse).Some? && Frames(buf[After(buf, n, parse).value..], parse) != []
  }

  predicate WaitsBehind(buf: string, n: nat, parse: Parser) {
    Stops(buf, n, parse) && MoreAfter(buf, n + 1, parse)
  }

  // Whatever is complete is dispatched by the event that completes it, unless a step that
  // ends the loop has a complete request behind it; and that is a test on the buffer.
  lemma RequestsWaitIff(buf: string, parse: Parser)
    requires |buf| <= MAX_BUFFER
    ensures Frames(buf[Turns(buf, 0, parse).1..], parse) != [] <==> exists n: nat :: WaitsBehind(buf, n, parse)
  {
    hide Turns, Frames, WaitsBehind;
    if Frames(buf[Turns(buf, 0, parse).1..], parse) != [] {
      var n := SomeWait(buf, 0, parse);
    }
    forall n: nat | WaitsBehind(buf, n, parse) ensures Frames(buf[Turns(buf, 0, parse).1..], parse) != [] {
      WaitsThen(buf, 0, n, parse);
    }
  }

  // What a turn does, by the number of its step.
  lemma TurnAt(buf: string, i: nat, parse: Parser)
    requires |buf| <= MAX_BUFFER && After(buf, i, parse).Some?
    ensures var p := After(buf, i, parse).value;
            if After(buf, i + 1, parse).None? then
              Turns(buf, p, parse).1 == p && Frames(buf[p..], parse) == []
            else
              var next := After(buf, i + 1, parse).value;
              next > p && Turns(buf, p, parse).1 == if Stops(buf, i, parse) then next else Turns(buf, next, parse).1
  {
    hide FirstStep, SizeSub, Turns, Frames, After;
    var p := After(buf, i, parse).value;
    var s := FirstStep(buf[p..], parse);
    AfterStep(buf, i, parse);
    TurnStep(buf, p, parse);
    if s.NeedMore? {
      NothingToFrame(buf[p..], parse);
    } else {
      AnotherTurnIff(|buf|, p, s.size);
    }
  }

  lemma AfterStep(buf: string, i: nat, parse: Parser)
    requires After(buf, i, parse).Some?
    ensures var p := After(buf, i, parse).value;
            var s := FirstStep(buf[p..], parse);
            After(buf, i + 1, parse) == if s.NeedMore? then None else Some(p + s.size)
  {
    hide FirstStep;
  }

  lemma {:induction false} SomeWait(buf: string, i: nat, parse: Parser) returns (n: nat)
    requires |buf| <= MAX_BUFFER && After(buf, i, parse).Some?
    requires Frames(buf[Turns(buf, After(buf, i, parse).value, parse).1..], parse) != []
    ensures WaitsBehind(buf, n, parse)
    decreases |buf| - After(buf, i, parse).value
  {
    hide FirstStep, Turns, Frames, After, Stops;
    TurnAt(buf, i, parse);
    if Stops(buf, i, parse) {
      n := i;
    } else {
      n := SomeWait(buf, i + 1, parse);
    }
  }

  lemma {:induction false} WaitsThen(buf: string, i: nat, n: nat, parse: Parser)
    requires |buf| <= MAX_BUFFER && After(buf, i, parse).Some?
    requires i <= n && WaitsBehind(buf, n, parse)
    ensures Frames(buf[Turns(buf, After(buf, i, parse).value, parse).1..], parse) != []
    decreases |buf| - After(buf, i, parse).value
  {
    hide FirstStep, Turns, Frames, After, Stops;
    TurnAt(buf, i, parse);
    MoreBefore(buf, i + 1, n + 1, parse);
    if !Stops(buf, i, parse) { WaitsThen(buf, i + 1, n, parse); }
  }

  lemma NothingToFrame(buf: string, parse: Parser)
    requires FirstStep(buf, parse).NeedMore?
    ensures Frames(buf, parse) == []
  {
  }

  // What comes later in the buffer came in it before.
  lemma {:induction false} MoreBefore(buf: string, i: nat, n: nat, parse: Parser)
    requires i <= n && MoreAfter(buf, n, parse)
    ensures MoreAfter(buf, i, parse)
    decreases n
  {
    if i < n {
      MoreOneBefore(buf, n - 1, parse);
      hide MoreAfter;
      MoreBefore(buf, i, n - 1, parse);
    }
  }

  lemma MoreOneBefore(buf: string, n: nat, parse: Parser)
    requires MoreAfter(buf, n + 1, parse)
    ensures MoreAfter(buf, n, parse)
  {
    var p := After(buf, n, parse).value;
    var size := FirstStep(buf[p..], parse).size;
    DropTwice(buf, p, size);
    hide FirstStep;
  }

  lemma NothingYet(parse: Parser)
    ensures FirstStep("", parse) == NeedMore && Frames("", parse) == []
  {
  }

  // ---------------------------------------------------------------- actions

  // What onData does for one request.
  datatype Action = OptionsResponse | InvalidContentType | BodilessPost | HandleJson(content: string)

  predicate IsJson(head: Head) {
    head.contentType.Some? && EqualsIgnoringCase(head.contentType.value, "application/json")
  }

  predicate IsOptions(head: Head) {
    head.isRequest && EqualsIgnoringCase(head.verb, "OPTIONS")
  }

  predicate IsPost(head: Head) {
    head.isRequest && EqualsIgnoringCase(head.verb, "POST")
  }

  function ActionsFor(r: Request): seq<Action> {
    if !r.head.isRequest then []
    else if EqualsIgnoringCase(r.head.verb, "OPTIONS") then [OptionsResponse]
    else if !EqualsIgnoringCase(r.head.verb, "POST") then []
    else if !IsJson(r.head) then [InvalidContentType]
    else if r.content == "" then [BodilessPost]
    else [HandleJson(r.content)]
  }

  function ActionsForAll(rs: seq<Request>): seq<Action> {
    if rs == [] then [] else ActionsFor(rs[0]) + ActionsForAll(rs[1..])
  }

  lemma ActionsForNext(done: seq<Action>, r: Request, more: seq<Request>)
    ensures done + ActionsForAll([r] + more) == (done + ActionsFor(r)) + ActionsForAll(more)
    ensures [r] + [] == [r]
  {
    assert ([r] + more)[1..] == more;
  }

  lemma NoActions(done: seq<Action>)
    ensures done + ActionsForAll([]) == done
  {
  }

  // The requests that are answered, and the contents that the service is given.
  predicate IsAnswered(r: Request) {
    IsOptions(r.head) || IsPost(r.head)
  }

  function Answered(rs: seq<Request>): seq<Request> {
    if rs == [] then [] else (if IsAnswered(rs[0]) then [rs[0]] else []) + Answered(rs[1..])
  }

  predicate CarriesJson(r: Request) {
    IsPost(r.head) && IsJson(r.head) && r.content != ""
  }

  function JsonContents(rs: seq<Request>): seq<string> {
    if rs == [] then [] else (if CarriesJson(rs[0]) then [rs[0].content] else []) + JsonContents(rs[1..])
  }

  function Handed(actions: seq<Action>): seq<string> {
    if actions == [] then []
    else (if actions[0].HandleJson? then [actions[0].content] else []) + Handed(actions[1..])
  }

  // What an answer says of the request that it answers.
  predicate Answers(a: Action, r: Request) {
    match a
    case OptionsResponse => IsOptions(r.head)
    case InvalidContentType => IsPost(r.head) && !IsJson(r.head)
    case BodilessPost => IsPost(r.head) && IsJson(r.head) && r.content == ""
    case HandleJson(content) => CarriesJson(r) && content == r.content
  }

  lemma VerbsDiffer(verb: string)
    ensures !(EqualsIgnoringCase(verb, "OPTIONS") && EqualsIgnoringCase(verb, "POST"))
  {
  }

  // No answer suits a request that another one suits as well, or that gets none.
  lemma OneAnswer(r: Request)
    ensures |ActionsFor(r)| == if IsAnswered(r) then 1 else 0
    ensures forall a :: Answers(a, r) <==> a in ActionsFor(r)
  {
    VerbsDiffer(r.head.verb);
    hide EqualsIgnoringCase;
  }

  // Of any requests, those with the method OPTIONS or POST get exactly one answer each, in
  // their order, the only one that suits them; nothing else is answered.
  lemma {:induction false} EachIsAnsweredOnce(rs: seq<Request>)
    ensures |ActionsForAll(rs)| == |Answered(rs)|
    ensures forall i :: 0 <= i < |Answered(rs)| ==> Answers(ActionsForAll(rs)[i], Answered(rs)[i])
    decreases |rs|
  {
    hide IsAnswered, Answers, ActionsFor;
    if rs != [] {
      OneAnswer(rs[0]);
      EachIsAnsweredOnce(rs[1..]);
      var first := ActionsFor(rs[0]);
      assert ActionsForAll(rs) == first + ActionsForAll(rs[1..]);
      if IsAnswered(rs[0]) {
        assert first[0] in first;
        assert Answered(rs) == [rs[0]] + Answered(rs[1..]);
      } else {
        assert Answered(rs) == Answered(rs[1..]);
      }
    }
  }

  lemma {:induction false} HandedJoins(a: seq<Action>, b: seq<Action>)
    ensures Handed(a + b) == Handed(a) + Handed(b)
    decreases |a|
  {
    if a == [] {
      assert a + b == b;
    } else {
      assert (a + b)[1..] == a[1..] + b;
      HandedJoins(a[1..], b);
    }
  }

  // The service is given the contents of the JSON posts that have one, unchanged, in their
  // order, and nothing else.
  lemma {:induction false} OnlyJsonPostsAreHanded(rs: seq<Request>)
    ensures Handed(ActionsForAll(rs)) == JsonContents(rs)
    decreases |rs|
  {
    hide ActionsFor, CarriesJson;
    if rs != [] {
      OnlyJsonPostsAreHanded(rs[1..]);
      HandedJoins(ActionsFor(rs[0]), ActionsForAll(rs[1..]));
      HandedFor(rs[0]);
    }
  }

  lemma HandedFor(r: Request)
    ensures Handed(ActionsFor(r)) == if CarriesJson(r) then [r.content] else []
  {
    VerbsDiffer(r.head.verb);
    hide EqualsIgnoringCase;
  }

  lemma {:induction false} JsonContentsJoin(a: seq<Request>, b: seq<Request>)
    ensures JsonContents(a + b) == JsonContents(a) + JsonContents(b)
    decreases |a|
  {
    hide CarriesJson;
    if a == [] {
      assert a + b == b;
    } else {
      assert (a + b)[1..] == a[1..] + b;
      JsonContentsJoin(a[1..], b);
    }
  }

  class C2CCallback {
    const parse: Parser
    var actions: seq<Action>

    constructor (parse: Parser)
      ensures this.parse == parse && actions == []
    {
      this.parse := parse;
      actions := [];
    }

    method Dispatch(r: Request)
      modifies `actions
      ensures actions == old(actions) + ActionsFor(r)
    {
      if r.head.isRequest {
        if EqualsIgnoringCase(r.head.verb, "OPTIONS") {
          actions := actions + [OptionsResponse];
        } else if EqualsIgnoringCase(r.head.verb, "POST") {
          if !IsJson(r.head) {
            actions := actions + [InvalidContentType];
          } else if r.content == "" {
            actions := actions + [BodilessPost];
          } else {
            actions := actions + [HandleJson(r.content)];
          }
        }
      }
    }

    // The part of onData that looks for a whole request in what is left of the buffer.
    method ParseBuffer(data: string) returns (step: Step)
      ensures step == FirstStep(data, parse)
    {
      var endOfHeaders := IndexOf(data, 0);
      if endOfHeaders.None? { return NeedMore; }
      var headersSize := endOfHeaders.value + 4;
      var httpMessage := parse(data[..headersSize]);
      if httpMessage.None? { return BadHeaders(headersSize); }
      var head, clen := httpMessage.value, httpMessage.value.contentLength;
      if clen == 0 {
        step := Complete(Request(head, ""), headersSize);
      } else if headersSize + clen > |data| {
        step := NeedMore;
      } else {
        step := Complete(Request(head, data[headersSize..headersSize + clen]), headersSize + clen);
      }
    }

    // onData: the requests it handles, in order, each once, and the bytes to be removed.
    method OnData(data: string) returns (nConsumedBytes: nat)
      modifies `actions
      ensures nConsumedBytes <= |data| && nConsumedBytes == Turns(data, 0, parse).1
      ensures actions == old(actions) + ActionsForAll(Turns(data, 0, parse).0)
    {
      hide SizeSub, FirstStep, Turns, ActionsForAll;
      nConsumedBytes := 0;
      ghost var all := old(actions) + ActionsForAll(Turns(data, 0, parse).0);
      while true
        invariant nConsumedBytes <= |data| && Turns(data, nConsumedBytes, parse).1 == Turns(data, 0, parse).1
        invariant actions + ActionsForAll(Turns(data, nConsumedBytes, parse).0) == all
        decreases |data| - nConsumedBytes
      {
        ghost var start := nConsumedBytes;
        NoActions(actions);
        TurnStep(data, start, parse);
        var nDataSize := |data| - nConsumedBytes;
        var step := ParseBuffer(data[nConsumedBytes..]);
        if step.NeedMore? { break; }
        nConsumedBytes := nConsumedBytes + step.size;
        if step.BadHeaders? { break; }
        ActionsForNext(actions, step.request, Turns(data, nConsumedBytes, parse).0);
        ActionsForNext(actions, step.request, []);
        Dispatch(step.request);
        NoActions(actions);
        if !(SizeSub(nDataSize, nConsumedBytes) >= MIN_CHUNK) { break; }
      }
    }
  }
}
