// Whole runs of the outgoing mail service: in which order mails leave, when the order
// breaks, when a connection is asked for, and which mails carry a log-in.

module MailRuns {
  import opened Common
  import opened MailQueue

  // --------------------------------------------------------------- flushing

  // How many of the next n attempts succeed before one fails.
  function Through(n: nat, attempts: nat, net: Net): (k: nat)
    ensures k <= n
    ensures forall i :: attempts <= i < attempts + k ==> net(i)
    ensures k < n ==> !net(attempts + k)
    decreases n
  {
    if n == 0 || !net(attempts) then 0 else 1 + Through(n - 1, attempts + 1, net)
  }

  // The mails of one flush: only the first may log in.
  function Deliveries(ms: seq<Mail>, connection: nat, auth: bool): seq<Delivery> {
    seq(|ms|, i requires 0 <= i < |ms| => Delivery(ms[i], connection, auth && i == 0))
  }

  // The state after a flush that sends k mails, and loses one more unless that was all.
  function Flushed(s: State, k: nat): State
    requires k <= |s.pending|
  {
    var f := if k < |s.pending| then 1 else 0;
    s.(sent := s.sent + Deliveries(s.pending[..k], s.connections, s.needToAuthenticate),
       lost := s.lost + s.pending[k..k + f],
       pending := s.pending[k + f..],
       needToAuthenticate := s.needToAuthenticate && k == 0)
  }

  lemma {:induction false} FlushIs(s: State, net: Net)
    requires s.Connected()
    ensures Flush(s, net) == Flushed(s, Through(|s.pending|, s.Attempts(), net))
    decreases |s.pending|
  {
    hide Flush, Flushed, Through;
    if s.pending == [] || !net(s.Attempts()) {
      NoneSent(s, net);
      NoneThrough(s, net);
    } else {
      var t := Send(s.(pending := s.pending[1..]), s.pending[0], net).(needToAuthenticate := false);
      OneThrough(s, t, net);
      FlushIs(t, net);
      FirstSent(s, t, Through(|s.pending|, s.Attempts(), net));
    }
  }

  lemma NoneThrough(s: State, net: Net)
    requires s.Connected() && (s.pending == [] || !net(s.Attempts()))
    ensures Through(|s.pending|, s.Attempts(), net) == 0
    ensures Flush(s, net) == if s.pending == [] then s else Send(s.(pending := s.pending[1..]), s.pending[0], net)
  {
    FlushUnfolds(s, net);
    hide Flush;
  }

  lemma OneThrough(s: State, t: State, net: Net)
    requires s.Connected() && s.pending != [] && net(s.Attempts())
    requires t == Send(s.(pending := s.pending[1..]), s.pending[0], net).(needToAuthenticate := false)
    ensures t.Connected() && Flush(s, net) == Flush(t, net)
    ensures Through(|s.pending|, s.Attempts(), net) == 1 + Through(|t.pending|, t.Attempts(), net)
  {
    hide Flush, Through;
    FlushUnfolds(s, net);
    assert t.Attempts() == s.Attempts() + 1 && |t.pending| == |s.pending| - 1;
    ThroughFirst(|s.pending|, s.Attempts(), net);
  }

  lemma ThroughFirst(n: nat, attempts: nat, net: Net)
    requires n > 0 && net(attempts)
    ensures Through(n, attempts, net) == 1 + Through(n - 1, attempts + 1, net)
  {
  }

  lemma NoneSent(s: State, net: Net)
    ensures s.pending == [] ==> Flushed(s, 0) == s
    ensures s.pending != [] && !net(s.Attempts()) ==>
              Flushed(s, 0) == Send(s.(pending := s.pending[1..]), s.pending[0], net)
  {
    assert s.sent + [] == s.sent && s.lost + [] == s.lost;
    assert s.pending != [] ==> s.pending[0..1] == [s.pending[0]];
  }

  lemma FirstSent(s: State, t: State, k: nat)
    requires 0 < k <= |s.pending|
    requires t == s.(pending := s.pending[1..], needToAuthenticate := false,
                     sent := s.sent + [Delivery(s.pending[0], s.connections, s.needToAuthenticate)])
    ensures Flushed(s, k) == Flushed(t, k - 1)
  {
    var all := Deliveries(s.pending[..k], s.connections, s.needToAuthenticate);
    var rest := Deliveries(t.pending[..k - 1], s.connections, false);
    assert all == [Delivery(s.pending[0], s.connections, s.needToAuthenticate)] + rest;
    assert s.sent + all == t.sent + rest;
    var f := if k < |s.pending| then 1 else 0;
    assert s.pending[k..k + f] == t.pending[k - 1..k - 1 + f] && s.pending[k + f..] == t.pending[k - 1 + f..];
  }

  // What coming up does, in one piece.
  lemma UpIs(s: State, fd: int, net: Net)
    ensures Up(s, fd, net) == Flushed(Attach(s, fd), Through(|s.pending|, s.Attempts(), net))
  {
    hide Flush, Through, Flushed;
    FlushIs(Attach(s, fd), net);
  }

  lemma RunNext(events: seq<Event>, e: Event, net: Net)
    ensures Run(events + [e], net) == Step(Run(events, net), e, net)
  {
    assert (events + [e])[..|events|] == events;
    hide Step;
  }

  // -------------------------------------------------------------- positions

  // Mails by their position of submission: sent, lost and waiting, each in its order.
  datatype Track = Track(sent: seq<nat>, lost: seq<nat>, waiting: seq<nat>)

  function FlushTrack(t: Track, k: nat): Track {
    var f := if k < |t.waiting| then 1 else 0;
    if k + f > |t.waiting| then t
    else Track(t.sent + t.waiting[..k], t.lost + t.waiting[k..k + f], t.waiting[k + f..])
  }

  function StepTrack(s: State, t: Track, e: Event, net: Net): Track {
    match e
    case Submitted(_) =>
      var nth := |s.submitted|;
      if !s.Connected() then t.(waiting := t.waiting + [nth])
      else if net(s.Attempts()) then t.(sent := t.sent + [nth])
      else t.(lost := t.lost + [nth])
    case WentUp(_) => FlushTrack(t, Through(|s.pending|, s.Attempts(), net))
    case WentDown(_) => t
  }

  function Tracked(events: seq<Event>, net: Net): Track {
    if events == [] then Track([], [], [])
    else
      var before, e := events[..|events| - 1], events[|events| - 1];
      StepTrack(Run(before, net), Tracked(before, net), e, net)
  }

  // These positions hold these mails.
  predicate At(positions: seq<nat>, mails: seq<Mail>, submitted: seq<Mail>) {
    |positions| == |mails|
    && forall i :: 0 <= i < |mails| ==> positions[i] < |submitted| && mails[i] == submitted[positions[i]]
  }

  ghost function All(t: Track): multiset<nat> {
    multiset(t.sent) + multiset(t.lost) + multiset(t.waiting)
  }

  // The track tells the state, and every submission is in one place, once.
  ghost predicate Tells(t: Track, s: State) {
    && At(t.sent, Mails(s.sent), s.submitted) && At(t.lost, s.lost, s.submitted)
    && At(t.waiting, s.pending, s.submitted)
    && EachOnce(t, |s.submitted|) && Ascending(t.waiting)
  }

  ghost predicate EachOnce(t: Track, n: nat) {
    forall i: nat :: All(t)[i] == if i < n then 1 else 0
  }

  predicate Ascending(x: seq<nat>) {
    forall a, b :: 0 <= a < b < |x| ==> x[a] < x[b]
  }

  lemma {:induction false} TrackTells(events: seq<Event>, net: Net)
    ensures Tells(Tracked(events, net), Run(events, net))
    decreases |events|
  {
    if events == [] {
      assert forall n: nat :: All(Track([], [], []))[n] == 0;
    } else {
      var before, e := events[..|events| - 1], events[|events| - 1];
      TrackTells(before, net);
      hide Tells, StepTrack, Step;
      StepTells(Run(before, net), Tracked(before, net), e, net);
    }
  }

  lemma StepTells(s: State, t: Track, e: Event, net: Net)
    requires Tells(t, s)
    ensures Tells(StepTrack(s, t, e, net), Step(s, e, net))
  {
    hide Tells;
    match e {
      case Submitted(m) => SubmitTells(s, t, m, net);
      case WentUp(fd) =>
        UpIs(s, fd, net);
        hide Up, Through, Flushed, FlushTrack;
        FlushTells(Attach(s, fd), t, Through(|s.pending|, s.Attempts(), net)) by { SameMails(s, fd, t); }
      case WentDown(fd) => SameMailsDown(s, fd, t);
    }
  }

  lemma SameMails(s: State, fd: int, t: Track)
    requires Tells(t, s)
    ensures Tells(t, Attach(s, fd))
  {
    hide At, EachOnce, Ascending, Mails;
  }

  lemma SameMailsDown(s: State, fd: int, t: Track)
    requires Tells(t, s)
    ensures Tells(t, Down(s, fd))
  {
    hide At, EachOnce, Ascending, Mails;
  }

  lemma AtGrows(positions: seq<nat>, mails: seq<Mail>, submitted: seq<Mail>, m: Mail)
    requires At(positions, mails, submitted)
    ensures At(positions, mails, submitted + [m]) && At(positions + [|submitted|], mails + [m], submitted + [m])
  {
  }

  lemma AtJoins(p: seq<nat>, x: seq<Mail>, q: seq<nat>, y: seq<Mail>, submitted: seq<Mail>)
    requires At(p, x, submitted) && At(q, y, submitted)
    ensures At(p + q, x + y, submitted)
  {
  }

  lemma SubmitTells(s: State, t: Track, m: Mail, net: Net)
    requires Tells(t, s)
    ensures Tells(StepTrack(s, t, Submitted(m), net), Submit(s, m, net))
  {
    hide At, Mails, EachOnce, Ascending;
    AtGrows(t.sent, Mails(s.sent), s.submitted, m);
    AtGrows(t.lost, s.lost, s.submitted, m);
    AtGrows(t.waiting, s.pending, s.submitted, m);
    MailsOfNext(s.sent, Delivery(m, s.connections, s.needToAuthenticate));
    OneMorePlace(t, |s.submitted|);
    LaterWaits(t.waiting, s.pending, s.submitted);
  }

  lemma OneMorePlace(t: Track, n: nat)
    requires EachOnce(t, n)
    ensures EachOnce(t.(sent := t.sent + [n]), n + 1) && EachOnce(t.(lost := t.lost + [n]), n + 1)
    ensures EachOnce(t.(waiting := t.waiting + [n]), n + 1)
  {
    assert All(t.(sent := t.sent + [n])) == All(t) + multiset{n};
    assert All(t.(lost := t.lost + [n])) == All(t) + multiset{n};
    assert All(t.(waiting := t.waiting + [n])) == All(t) + multiset{n};
    hide All;
  }

  lemma LaterWaits(positions: seq<nat>, mails: seq<Mail>, submitted: seq<Mail>)
    requires At(positions, mails, submitted) && Ascending(positions)
    ensures Ascending(positions + [|submitted|])
  {
  }

  lemma FlushTells(s: State, t: Track, k: nat)
    requires Tells(t, s) && k <= |s.pending|
    ensures |t.waiting| == |s.pending| && Tells(FlushTrack(t, k), Flushed(s, k))
  {
    hide At, Mails, Deliveries, EachOnce, Ascending;
    SameLength(t, s);
    var f, n := if k < |s.pending| then 1 else 0, |s.pending|;
    Parts(t.waiting, s.pending, s.submitted, k, f);
    AtJoins(t.sent, Mails(s.sent), t.waiting[..k], s.pending[..k], s.submitted);
    AtJoins(t.lost, s.lost, t.waiting[k..k + f], s.pending[k..k + f], s.submitted);
    MailsJoin(s.sent, s.pending[..k], s.connections, s.needToAuthenticate);
    SamePlaces(t, |s.submitted|, k, f);
  }

  lemma SameLength(t: Track, s: State)
    requires Tells(t, s)
    ensures |t.waiting| == |s.pending|
  {
    hide EachOnce, Ascending, Mails;
  }

  lemma Parts(positions: seq<nat>, mails: seq<Mail>, submitted: seq<Mail>, k: nat, f: nat)
    requires At(positions, mails, submitted) && Ascending(positions) && k + f <= |mails|
    ensures |positions| == |mails| && At(positions[..k], mails[..k], submitted)
    ensures At(positions[k..k + f], mails[k..k + f], submitted) && At(positions[k + f..], mails[k + f..], submitted)
    ensures Ascending(positions[k + f..])
  {
  }

  lemma MailsJoin(ds: seq<Delivery>, ms: seq<Mail>, connection: nat, auth: bool)
    ensures Mails(ds + Deliveries(ms, connection, auth)) == Mails(ds) + ms
  {
  }

  lemma SamePlaces(t: Track, n: nat, k: nat, f: nat)
    requires k + f <= |t.waiting| && EachOnce(t, n)
    ensures EachOnce(Track(t.sent + t.waiting[..k], t.lost + t.waiting[k..k + f], t.waiting[k + f..]), n)
  {
    assert t.waiting == t.waiting[..k] + t.waiting[k..k + f] + t.waiting[k + f..];
    assert All(Track(t.sent + t.waiting[..k], t.lost + t.waiting[k..k + f], t.waiting[k + f..])) == All(t);
    hide All;
  }

  // ------------------------------------------------------------------ order

  // Mail p went out, and q, which was submitted before it, comes after it or still waits.
  ghost predicate Inverted(t: Track, q: nat, p: nat) {
    q < p && exists a :: 0 <= a < |t.sent| && t.sent[a] == p && Behind(t, a, q)
  }

  ghost predicate Behind(t: Track, a: nat, q: nat) {
    q in t.waiting || exists b :: a < b < |t.sent| && t.sent[b] == q
  }

  // Event i submits a mail that goes out at once while mail q waits.
  ghost predicate Overtakes(events: seq<Event>, i: nat, net: Net, q: nat) {
    i < |events| && events[i].Submitted?
    && Run(events[..i], net).Connected() && net(Run(events[..i], net).Attempts())
    && q in Tracked(events[..i], net).waiting
  }

  ghost predicate OvertakenBy(events: seq<Event>, net: Net, q: nat, p: nat) {
    exists i: nat :: Overtakes(events, i, net, q) && p == |Run(events[..i], net).submitted|
  }

  // Membership, from places counted once.
  lemma Placed(t: Track, n: nat)
    requires EachOnce(t, n)
    ensures forall q: nat :: q in t.sent || q in t.lost || q in t.waiting <==> q < n
    ensures forall q :: q in t.waiting ==> q !in t.lost && q !in t.sent
    ensures forall q :: q in t.sent ==> q !in t.lost
    ensures forall a, b :: 0 <= a < b < |t.sent| ==> t.sent[a] != t.sent[b]
  {
    forall q: nat
      ensures q in t.sent || q in t.lost || q in t.waiting <==> q < n
      ensures q in t.waiting ==> q !in t.lost && q !in t.sent
      ensures q in t.sent ==> q !in t.lost
    {
      assert All(t)[q] == multiset(t.sent)[q] + multiset(t.lost)[q] + multiset(t.waiting)[q];
    }
    forall a, b | 0 <= a < b < |t.sent| ensures t.sent[a] != t.sent[b] {
      TwiceIn(t.sent, a, b);
      assert All(t)[t.sent[a]] >= multiset(t.sent)[t.sent[a]];
    }
  }

  lemma TwiceIn(x: seq<nat>, a: nat, b: nat)
    requires a < b < |x|
    ensures x[a] == x[b] ==> multiset(x)[x[a]] >= 2
  {
    assert x == x[..b] + [x[b]] + x[b + 1..];
    assert x[a] in x[..b];
  }

  // The order and one event: a mail that is sent at once leaves behind what waits, and an
  // overtaken mail that is lost is out of the order again.
  lemma SubmitInverts(t: Track, n: nat, q: nat, p: nat)
    requires EachOnce(t, n)
    ensures Inverted(t.(waiting := t.waiting + [n]), q, p) <==> Inverted(t, q, p)
    ensures Inverted(t.(lost := t.lost + [n]), q, p) <==> Inverted(t, q, p)
    ensures Inverted(t.(sent := t.sent + [n]), q, p) <==> Inverted(t, q, p) || (p == n && q in t.waiting)
  {
    Placed(t, n);
    hide EachOnce;
    forall a | 0 <= a < |t.sent| ensures t.sent[a] < n {
      assert t.sent[a] in t.sent;
    }
    WaitsMore(t, n, q, p);
    SentNow(t, n, q, p);
    var u := t.(lost := t.lost + [n]);
    assert forall a :: 0 <= a < |t.sent| ==> (Behind(u, a, q) <==> Behind(t, a, q));
  }

  lemma WaitsMore(t: Track, n: nat, q: nat, p: nat)
    requires forall a :: 0 <= a < |t.sent| ==> t.sent[a] < n
    ensures Inverted(t.(waiting := t.waiting + [n]), q, p) <==> Inverted(t, q, p)
  {
    var u := t.(waiting := t.waiting + [n]);
    if q != n {
      assert forall a :: 0 <= a < |t.sent| ==> (Behind(u, a, q) <==> Behind(t, a, q));
    }
  }

  lemma SentNow(t: Track, n: nat, q: nat, p: nat)
    requires (forall a :: 0 <= a < |t.sent| ==> t.sent[a] < n) && forall w :: w in t.waiting ==> w < n
    ensures Inverted(t.(sent := t.sent + [n]), q, p) <==> Inverted(t, q, p) || (p == n && q in t.waiting)
  {
    var u := t.(sent := t.sent + [n]);
    if q < p {
      forall a | 0 <= a < |t.sent| && t.sent[a] == p ensures Behind(u, a, q) <==> Behind(t, a, q) {
        if b :| a < b < |t.sent| && t.sent[b] == q { assert u.sent[b] == q; }
        if b :| a < b < |u.sent| && u.sent[b] == q { assert b < |t.sent| && t.sent[b] == q; }
      }
      assert u.sent[|t.sent|] == n;
      assert Behind(u, |t.sent|, q) <==> q in t.waiting;
      assert forall a :: 0 <= a < |t.sent| ==> u.sent[a] == t.sent[a];
    }
  }

  lemma FlushInverts(t: Track, n: nat, k: nat, q: nat, p: nat)
    requires EachOnce(t, n) && Ascending(t.waiting) && k <= |t.waiting|
    ensures Inverted(FlushTrack(t, k), q, p) <==> Inverted(t, q, p) && q !in FlushTrack(t, k).lost
  {
    var f := if k < |t.waiting| then 1 else 0;
    var u := FlushTrack(t, k);
    SamePlaces(t, n, k, f);
    Placed(t, n);
    Placed(u, n);
    hide EachOnce;
    if Inverted(t, q, p) && q !in u.lost { StaysInverted(t, k, q, p); }
    if Inverted(u, q, p) { WasInverted(t, k, q, p); }
  }

  lemma StaysInverted(t: Track, k: nat, q: nat, p: nat)
    requires k <= |t.waiting| && Inverted(t, q, p) && q !in FlushTrack(t, k).lost
    ensures Inverted(FlushTrack(t, k), q, p)
  {
    var u, f := FlushTrack(t, k), if k < |t.waiting| then 1 else 0;
    var a :| 0 <= a < |t.sent| && t.sent[a] == p && Behind(t, a, q);
    assert u.sent[a] == p;
    assert f == 1 ==> u.lost[|t.lost|] == t.waiting[k];
    if q in t.waiting {
      var j :| 0 <= j < |t.waiting| && t.waiting[j] == q;
      if j < k {
        assert u.sent[|t.sent| + j] == q;
      } else {
        assert t.waiting[k + f..][j - k - f] == q;
      }
    } else {
      var b :| a < b < |t.sent| && t.sent[b] == q;
      assert u.sent[b] == q;
    }
    assert Behind(u, a, q);
  }

  lemma WasInverted(t: Track, k: nat, q: nat, p: nat)
    requires k <= |t.waiting| && Ascending(t.waiting) && Inverted(FlushTrack(t, k), q, p)
    requires forall w :: w in t.sent ==> w !in t.waiting
    requires forall w :: w in FlushTrack(t, k).sent || w in FlushTrack(t, k).waiting ==> w !in FlushTrack(t, k).lost
    ensures Inverted(t, q, p) && q !in FlushTrack(t, k).lost
  {
    var u, f := FlushTrack(t, k), if k < |t.waiting| then 1 else 0;
    var a :| 0 <= a < |u.sent| && u.sent[a] == p && Behind(u, a, q);
    if a >= |t.sent| {
      FlushedInOrder(t, k, a, q);
      assert false;
    }
    assert t.sent[a] == p;
    if q in u.waiting {
      var j :| 0 <= j < |u.waiting| && u.waiting[j] == q;
      assert t.waiting[j + k + f] == q;
    } else {
      var b :| a < b < |u.sent| && u.sent[b] == q;
      if b < |t.sent| { assert t.sent[b] == q; } else { assert t.waiting[b - |t.sent|] == q; }
    }
    assert Behind(t, a, q);
  }

  // The mails of a flush go out in the order in which they waited.
  lemma FlushedInOrder(t: Track, k: nat, a: nat, q: nat)
    requires k <= |t.waiting| && Ascending(t.waiting)
    requires var u := FlushTrack(t, k); |t.sent| <= a < |u.sent| && Behind(u, a, q)
    ensures q > FlushTrack(t, k).sent[a]
  {
    var u, f := FlushTrack(t, k), if k < |t.waiting| then 1 else 0;
    assert t.waiting[a - |t.sent|] == u.sent[a];
    if q in u.waiting {
      var j :| 0 <= j < |u.waiting| && u.waiting[j] == q;
      assert t.waiting[j + k + f] == q;
    } else {
      var b :| a < b < |u.sent| && u.sent[b] == q;
      assert t.waiting[b - |t.sent|] == q;
    }
  }

  // Over every run: a mail is out of order behind another one exactly when the other was
  // submitted, and sent at once, while it waited, and it has not been lost since.
  lemma {:induction false} InvertedIff(events: seq<Event>, net: Net, q: nat, p: nat)
    ensures Inverted(Tracked(events, net), q, p) <==>
            OvertakenBy(events, net, q, p) && q !in Tracked(events, net).lost
    decreases |events|
  {
    if events != [] {
      var before, e := events[..|events| - 1], events[|events| - 1];
      var s, t := Run(before, net), Tracked(before, net);
      InvertedIff(before, net, q, p);
      TrackTells(before, net);
      TrackTells(events, net);
      OvertakenNext(events, net, q, p);
      hide OvertakenBy, Inverted;
      StepInverts(s, t, e, net, q, p);
    }
  }

  lemma OvertakenNext(events: seq<Event>, net: Net, q: nat, p: nat)
    requires events != []
    ensures var before, last := events[..|events| - 1], |events| - 1;
            OvertakenBy(events, net, q, p) <==>
            || OvertakenBy(before, net, q, p)
            || (Overtakes(events, last, net, q) && p == |Run(before, net).submitted|)
  {
    var before, last := events[..|events| - 1], |events| - 1;
    forall i: nat ensures Overtakes(before, i, net, q) <==> i < last && Overtakes(events, i, net, q) {
      OvertakesBefore(events, i, net, q);
    }
    forall i: nat | i < last ensures before[..i] == events[..i] {}
    assert forall i: nat :: Overtakes(events, i, net, q) ==> i <= last;
    hide Overtakes, Run;
    if OvertakenBy(events, net, q, p) {
      var i: nat :| Overtakes(events, i, net, q) && p == |Run(events[..i], net).submitted|;
      assert i < last ==> Overtakes(before, i, net, q) && before[..i] == events[..i];
    }
    if OvertakenBy(before, net, q, p) {
      var i: nat :| Overtakes(before, i, net, q) && p == |Run(before[..i], net).submitted|;
      assert Overtakes(events, i, net, q) && before[..i] == events[..i];
    }
  }

  lemma OvertakesBefore(events: seq<Event>, i: nat, net: Net, q: nat)
    requires events != []
    ensures Overtakes(events[..|events| - 1], i, net, q) <==> i < |events| - 1 && Overtakes(events, i, net, q)
  {
    hide Run, Tracked;
    if i < |events| - 1 { assert events[..|events| - 1][..i] == events[..i]; }
  }

  lemma StepInverts(s: State, t: Track, e: Event, net: Net, q: nat, p: nat)
    requires Tells(t, s) && Tells(StepTrack(s, t, e, net), Step(s, e, net))
    ensures var u := StepTrack(s, t, e, net);
            && (forall x :: x in t.lost ==> x in u.lost)
            && (Inverted(u, q, p) <==> (Inverted(t, q, p) || OvertakenNow(s, t, e, net, q, p)) && q !in u.lost)
  {
    var u := StepTrack(s, t, e, net);
    hide At, Mails, Ascending, Step, Through, Inverted;
    Counted(s, t);
    NotLost(u, Step(s, e, net), q, p);
    match e {
      case Submitted(m) => SubmitInverts(t, |s.submitted|, q, p);
      case WentUp(fd) => FlushInverts(t, |s.submitted|, Through(|s.pending|, s.Attempts(), net), q, p);
      case WentDown(fd) =>
    }
  }

  predicate OvertakenNow(s: State, t: Track, e: Event, net: Net, q: nat, p: nat) {
    e.Submitted? && s.Connected() && net(s.Attempts()) && q in t.waiting && p == |s.submitted|
  }

  lemma Counted(s: State, t: Track)
    requires Tells(t, s)
    ensures EachOnce(t, |s.submitted|) && |t.waiting| == |s.pending|
  {
    hide EachOnce, Ascending, Mails;
  }

  lemma NotLost(t: Track, s: State, q: nat, p: nat)
    requires Tells(t, s)
    ensures Inverted(t, q, p) ==> q !in t.lost
  {
    Placed(t, |s.submitted|) by { hide At, Mails, Ascending, Inverted; }
    hide At, Mails, Ascending, EachOnce;
  }

  // What has gone out, followed by what waits, is in the order of submission.
  predicate InSubmissionOrder(t: Track) { Ascending(t.sent + t.waiting) }

  // The order holds exactly when every mail that was ever overtaken has been lost since.
  lemma OrderIff(events: seq<Event>, net: Net)
    ensures InSubmissionOrder(Tracked(events, net)) <==>
            forall i: nat, q: nat :: Overtakes(events, i, net, q) ==> q in Tracked(events, net).lost
  {
    var t := Tracked(events, net);
    TrackTells(events, net);
    OrderedIff(t, Run(events, net));
    hide Tracked, Run, InSubmissionOrder, Tells, Overtakes, Inverted;
    forall q: nat, p: nat ensures Inverted(t, q, p) <==> OvertakenBy(events, net, q, p) && q !in t.lost {
      InvertedIff(events, net, q, p);
    }
    forall i: nat, q: nat | Overtakes(events, i, net, q)
      ensures OvertakenBy(events, net, q, |Run(events[..i], net).submitted|)
    {
    }
  }

  lemma OrderedIff(t: Track, s: State)
    requires Tells(t, s)
    ensures InSubmissionOrder(t) <==> forall q: nat, p: nat :: !Inverted(t, q, p)
  {
    var x := t.sent + t.waiting;
    Counted(s, t);
    Placed(t, |s.submitted|);
    hide EachOnce, At, Mails;
    if Ascending(x) {
      forall q: nat, p: nat ensures !Inverted(t, q, p) { NoneInverted(t, q, p); }
    } else {
      var a, b :| 0 <= a < b < |x| && x[a] >= x[b];
      OneInverted(t, a, b);
    }
  }

  lemma NoneInverted(t: Track, q: nat, p: nat)
    requires Ascending(t.sent + t.waiting)
    ensures !Inverted(t, q, p)
  {
    forall a | 0 <= a < |t.sent| && Behind(t, a, q) ensures q > t.sent[a] {
      BehindIsLater(t, a, q);
    }
  }

  lemma BehindIsLater(t: Track, a: nat, q: nat)
    requires Ascending(t.sent + t.waiting) && a < |t.sent| && Behind(t, a, q)
    ensures q > t.sent[a]
  {
    var x := t.sent + t.waiting;
    assert x[a] == t.sent[a];
    if q in t.waiting {
      var j :| 0 <= j < |t.waiting| && t.waiting[j] == q;
      assert x[|t.sent| + j] == q;
    } else {
      var b :| a < b < |t.sent| && t.sent[b] == q;
      assert x[b] == q;
    }
  }

  lemma OneInverted(t: Track, a: nat, b: nat)
    requires a < b < |t.sent + t.waiting| && (t.sent + t.waiting)[a] >= (t.sent + t.waiting)[b] && Ascending(t.waiting)
    requires forall w :: w in t.waiting ==> w !in t.sent
    requires forall c, d :: 0 <= c < d < |t.sent| ==> t.sent[c] != t.sent[d]
    ensures exists q: nat, p: nat :: Inverted(t, q, p)
  {
    var x := t.sent + t.waiting;
    if a >= |t.sent| {
      BothWait(t, a, b);
      assert false;
    }
    assert t.sent[a] == x[a];
    if b < |t.sent| { assert t.sent[b] == x[b]; } else { assert t.waiting[b - |t.sent|] == x[b]; }
    assert Behind(t, a, x[b]);
    assert Inverted(t, x[b], x[a]);
  }

  lemma BothWait(t: Track, a: nat, b: nat)
    requires |t.sent| <= a < b < |t.sent + t.waiting| && Ascending(t.waiting)
    ensures (t.sent + t.waiting)[a] < (t.sent + t.waiting)[b]
  {
    assert (t.sent + t.waiting)[a] == t.waiting[a - |t.sent|];
  }

  // Event i submits a mail that goes out at once although some mail waits.
  predicate Overtaking(events: seq<Event>, i: nat, net: Net) {
    && i < |events| && events[i].Submitted?
    && var s := Run(events[..i], net); s.Connected() && net(s.Attempts()) && s.pending != []
  }

  lemma OvertakingIff(events: seq<Event>, i: nat, net: Net)
    ensures Overtaking(events, i, net) <==> exists q: nat :: Overtakes(events, i, net, q)
  {
    if i < |events| {
      TrackTells(events[..i], net);
      Counted(Run(events[..i], net), Tracked(events[..i], net));
      var w := Tracked(events[..i], net).waiting;
      assert w != [] ==> w[0] in w;
      hide Run, Tracked, Tells;
      if Overtaking(events, i, net) { assert Overtakes(events, i, net, w[0]); }
    }
  }

  // The order holds all along a run exactly when no mail is submitted and sent at once
  // while others wait on the live connection.
  lemma AlwaysInOrderIff(events: seq<Event>, net: Net)
    ensures (forall k: nat :: k <= |events| ==> InSubmissionOrder(Tracked(events[..k], net))) <==>
            forall i: nat :: !Overtaking(events, i, net)
  {
    hide InSubmissionOrder, Overtaking, Overtakes;
    if forall i: nat :: !Overtaking(events, i, net) {
      forall k: nat | k <= |events| ensures InSubmissionOrder(Tracked(events[..k], net)) {
        OrderIff(events[..k], net);
        forall i: nat, q: nat ensures !Overtakes(events[..k], i, net, q) { PrefixOvertakes(events, k, i, net, q); }
      }
    }
    forall i: nat | Overtaking(events, i, net)
      ensures i < |events| && !InSubmissionOrder(Tracked(events[..i + 1], net))
    {
      OvertakingBreaks(events, i, net);
    }
  }

  lemma PrefixOvertakes(events: seq<Event>, k: nat, i: nat, net: Net, q: nat)
    requires k <= |events|
    ensures Overtakes(events[..k], i, net, q) ==> Overtaking(events, i, net)
  {
    OvertakingIff(events, i, net);
    hide Run, Tracked, Overtaking;
    if i < k {
      assert events[..k][..i] == events[..i];
      assert Overtakes(events[..k], i, net, q) <==> Overtakes(events, i, net, q);
    }
  }

  lemma OvertakingBreaks(events: seq<Event>, i: nat, net: Net)
    requires Overtaking(events, i, net)
    ensures i < |events| && !InSubmissionOrder(Tracked(events[..i + 1], net))
  {
    OvertakingIff(events, i, net);
    var q: nat :| Overtakes(events, i, net, q);
    var upTo := events[..i + 1];
    assert upTo[..i] == events[..i] && upTo[i] == events[i] && |upTo| == i + 1;
    assert Overtakes(upTo, i, net, q) by { hide Run, Tracked; }
    OrderIff(upTo, net);
    TrackTells(events[..i], net);
    Counted(Run(events[..i], net), Tracked(events[..i], net));
    Placed(Tracked(events[..i], net), |Run(events[..i], net).submitted|);
    assert Tracked(upTo, net) == StepTrack(Run(events[..i], net), Tracked(events[..i], net), events[i], net);
    hide Run, Tracked, EachOnce, Tells, InSubmissionOrder;
  }

  // ---------------------------------------------------------------- backlog

  // Coming up leaves mails waiting exactly when an attempt fails before the last mail's.
  lemma LeavesSomeIff(s: State, fd: int, net: Net)
    ensures Up(s, fd, net).pending != [] <==> FailsEarly(s, net)
    ensures Up(s, fd, net).Connected()
  {
    UpIs(s, fd, net);
    var k := Through(|s.pending|, s.Attempts(), net);
    assert k + 1 < |s.pending| ==> !net(s.Attempts() + k);
    hide Up, Through;
  }

  predicate FailsEarly(s: State, net: Net) {
    exists n :: s.Attempts() <= n < s.Attempts() + |s.pending| - 1 && !net(n)
  }

  // The connection that is live came up at event i and its flush failed with mails left.
  predicate LeftBehind(events: seq<Event>, i: nat, net: Net) {
    && i < |events| && events[i].WentUp? && FailsEarly(Run(events[..i], net), net)
    && forall j :: i < j < |events| ==> events[j].Submitted?
  }

  // Mails wait on a live connection exactly when its flush has failed with mails left.
  lemma {:induction false} BacklogIff(events: seq<Event>, net: Net)
    ensures Run(events, net).Connected() && Run(events, net).pending != [] <==>
            exists i: nat :: LeftBehind(events, i, net)
    decreases |events|
  {
    if events != [] {
      var before, last := events[..|events| - 1], |events| - 1;
      BacklogIff(before, net);
      assert before == events[..last];
      forall i: nat ensures events[last].Submitted? ==> (LeftBehind(events, i, net) <==> LeftBehind(before, i, net)) {
        if events[last].Submitted? { LeftBehindBefore(events, i, net); }
      }
      var s := Run(before, net);
      assert forall i: nat :: LeftBehind(events, i, net) && !events[last].Submitted? ==> i == last;
      match events[last] {
        case Submitted(m) => hide LeftBehind, Run;
        case WentUp(fd) =>
          LeavesSomeIff(s, fd, net);
          hide FailsEarly, Up;
          assert LeftBehind(events, last, net) <==> FailsEarly(s, net);
        case WentDown(fd) =>
          assert !LeftBehind(events, last, net);
      }
    }
  }

  lemma LeftBehindBefore(events: seq<Event>, i: nat, net: Net)
    requires events != [] && events[|events| - 1].Submitted?
    ensures LeftBehind(events, i, net) <==> LeftBehind(events[..|events| - 1], i, net)
  {
    hide Run, FailsEarly;
    var before := events[..|events| - 1];
    if i < |before| { assert before[..i] == events[..i]; }
    assert forall j :: 0 <= j < |before| ==> before[j] == events[j];
  }

  // ---------------------------------------------------------------- dialling

  // A submission asks for a connection exactly when it is the first event of all, or the
  // event just before was the end of a connection; no other one does.
  lemma DialsIff(events: seq<Event>, m: Mail, net: Net)
    ensures var dials, now := Run(events, net).dials, Run(events + [Submitted(m)], net).dials;
            now == dials + if events == [] || events[|events| - 1].WentDown? then 1 else 0
  {
    RunNext(events, Submitted(m), net);
    hide Run;
    IdleIff(events, net);
  }

  lemma IdleIff(events: seq<Event>, net: Net)
    ensures var s := Run(events, net);
            !s.Connected() && !s.connectToPending <==> events == [] || events[|events| - 1].WentDown?
  {
    if events != [] {
      var s, e := Run(events[..|events| - 1], net), events[|events| - 1];
      match e {
        case Submitted(m) =>
        case WentUp(fd) =>
          LeavesSomeIff(s, fd, net);
          hide Up;
        case WentDown(fd) =>
      }
    }
  }

  // ---------------------------------------------------------------- log-ins

  // AUTH LOGIN is in the first mail of each connection and in no other.
  ghost predicate AuthFirst(sent: seq<Delivery>) {
    forall i :: 0 <= i < |sent| ==> (sent[i].auth <==> StartsConnection(sent, i))
  }

  predicate StartsConnection(sent: seq<Delivery>, i: nat)
    requires i < |sent|
  {
    i == 0 || sent[i - 1].connection != sent[i].connection
  }

  // How many submissions follow directly from event i on.
  function Follow(events: seq<Event>, i: nat): (n: nat)
    ensures i <= |events| ==> i + n <= |events|
    decreases |events| - i
  {
    if i < |events| && events[i].Submitted? then 1 + Follow(events, i + 1) else 0
  }

  // How many of n attempts in a row succeed.
  function Successes(from: nat, n: nat, net: Net): (k: nat)
    ensures k <= n
  {
    if n == 0 then 0 else Successes(from, n - 1, net) + if net(from + n - 1) then 1 else 0
  }

  // How many mails a connection carries that comes up in this state: those of its flush,
  // and of n mails submitted on it afterwards.
  function FlushSends(s: State, net: Net): (k: nat)
    ensures k <= |s.pending|
  {
    Through(|s.pending|, s.Attempts(), net)
  }

  function AttemptsAfterFlush(s: State, net: Net): nat {
    var k := FlushSends(s, net);
    s.Attempts() + k + if k < |s.pending| then 1 else 0
  }

  function SentLater(events: seq<Event>, i: nat, net: Net): nat
    requires i < |events|
  {
    Successes(AttemptsAfterFlush(Run(events[..i], net), net), Follow(events, i + 1), net)
  }

  // The connection that comes up at event i is good when the service has to log in and
  // either its flush sends a mail or at most one is sent on it later, or when it carries no
  // mail at all.
  predicate GoodConnection(events: seq<Event>, i: nat, net: Net)
    requires i < |events|
  {
    var s := Run(events[..i], net);
    var flushed, later := FlushSends(s, net), SentLater(events, i, net);
    || (s.needToAuthenticate && flushed > 0)
    || (s.needToAuthenticate && later <= 1)
    || (flushed == 0 && later == 0)
  }

  ghost predicate AllGood(events: seq<Event>, net: Net) {
    forall i: nat :: i < |events| && events[i].WentUp? ==> GoodConnection(events, i, net)
  }

  // The event at which the live connection came up.
  function LiveSince(events: seq<Event>): (r: Option<nat>)
    ensures r.Some? ==> r.value < |events| && events[r.value].WentUp?
  {
    if events == [] then None
    else
      match events[|events| - 1]
      case Submitted(_) => LiveSince(events[..|events| - 1])
      case WentUp(_) => Some(|events| - 1)
      case WentDown(_) => None
  }

  // The live connection has carried a mail.
  predicate Used(s: State) { s.sent != [] && s.sent[|s.sent| - 1].connection == s.connections }

  // What the flag and the last delivery say of the live connection.
  ghost predicate FlagTells(events: seq<Event>, s: State, net: Net) {
    && (s.sent != [] ==> s.sent[|s.sent| - 1].connection <= s.connections)
    && (s.Connected() <==> LiveSince(events).Some?)
    && (LiveSince(events).Some? ==> LiveTells(events, s, LiveSince(events).value, net))
  }

  ghost predicate LiveTells(events: seq<Event>, s: State, i: nat, net: Net) {
    i < |events|
    && var up := Run(events[..i], net);
       && i + 1 + Follow(events, i + 1) == |events| && s.connections == up.connections + 1
       && s.needToAuthenticate == (up.needToAuthenticate && FlushSends(up, net) == 0)
       && s.Attempts() == AttemptsAfterFlush(up, net) + Follow(events, i + 1)
       && (Used(s) <==> FlushSends(up, net) > 0 || SentLater(events, i, net) > 0)
  }

  lemma {:induction false} FollowNext(before: seq<Event>, e: Event, i: nat)
    requires i <= |before|
    ensures Follow(before + [e], i) ==
            Follow(before, i) + if i + Follow(before, i) == |before| && e.Submitted? then 1 else 0
    decreases |before| - i
  {
    if i < |before| {
      assert (before + [e])[i] == before[i];
      FollowNext(before, e, i + 1);
    }
  }

  lemma NextAuth(sent: seq<Delivery>, d: Delivery)
    ensures AuthFirst(sent + [d]) <==>
            AuthFirst(sent) && (d.auth <==> sent == [] || sent[|sent| - 1].connection != d.connection)
  {
    var all := sent + [d];
    assert all[|sent|] == d;
    forall i | 0 <= i < |sent|
      ensures all[i].auth == sent[i].auth && StartsConnection(all, i) == StartsConnection(sent, i) {}
  }

  // The deliveries of a flush on a connection that has carried nothing yet.
  lemma {:induction false} FlushAuth(sent: seq<Delivery>, ms: seq<Mail>, connection: nat, auth: bool)
    requires sent != [] ==> sent[|sent| - 1].connection < connection
    ensures AuthFirst(sent + Deliveries(ms, connection, auth)) <==> AuthFirst(sent) && (ms == [] || auth)
    decreases |ms|
  {
    if ms == [] {
      assert sent + [] == sent;
    } else {
      var last := |ms| - 1;
      var head, d := Deliveries(ms[..last], connection, auth), Delivery(ms[last], connection, auth && last == 0);
      assert Deliveries(ms, connection, auth) == head + [d];
      assert sent + (head + [d]) == (sent + head) + [d];
      FlushAuth(sent, ms[..last], connection, auth);
      NextAuth(sent + head, d);
      hide AuthFirst;
    }
  }

  lemma {:induction false} LiveSinceIff(events: seq<Event>, i: nat)
    ensures LiveSince(events) == Some(i) <==>
            i < |events| && events[i].WentUp? && i + 1 + Follow(events, i + 1) == |events|
    decreases |events|
  {
    if events != [] {
      var before, e := events[..|events| - 1], events[|events| - 1];
      assert before + [e] == events;
      LiveSinceIff(before, i);
      if i < |before| { FollowNext(before, e, i + 1); }
    }
  }

  // One event more changes nothing for a connection, unless it is a submission on it.
  lemma GoodStays(before: seq<Event>, e: Event, i: nat, net: Net)
    requires i < |before| && before[i].WentUp? && !(e.Submitted? && LiveSince(before) == Some(i))
    ensures GoodConnection(before + [e], i, net) <==> GoodConnection(before, i, net)
  {
    hide Run, LiveSince, Follow, Successes, FlushSends, AttemptsAfterFlush;
    LiveSinceIff(before, i);
    FollowNext(before, e, i + 1);
    assert (before + [e])[..i] == before[..i];
  }

  // The connections but one.
  ghost predicate GoodBut(events: seq<Event>, but: nat, net: Net) {
    forall i: nat :: i < |events| && i != but && events[i].WentUp? ==> GoodConnection(events, i, net)
  }

  lemma GoodButStays(before: seq<Event>, e: Event, but: nat, net: Net)
    requires e.Submitted? && LiveSince(before).Some? ==> LiveSince(before) == Some(but)
    requires e.WentUp? ==> but == |before|
    ensures GoodBut(before + [e], but, net) <==> GoodBut(before, but, net)
  {
    var events := before + [e];
    assert forall i: nat :: i < |before| ==> events[i] == before[i];
    forall i: nat | i < |before| && i != but && before[i].WentUp?
      ensures GoodConnection(events, i, net) <==> GoodConnection(before, i, net)
    {
      GoodStays(before, e, i, net);
    }
    hide GoodConnection;
  }

  lemma GoodAnd(events: seq<Event>, but: nat, net: Net)
    ensures AllGood(events, net) <==>
            GoodBut(events, but, net) && (but < |events| && events[but].WentUp? ==> GoodConnection(events, but, net))
  {
    hide GoodConnection;
  }

  // Over every run, whatever fails: the service logs in with the first mail of each
  // connection and with no other, if and only if every connection is a good one.
  lemma {:induction false} AuthFirstIff(events: seq<Event>, net: Net)
    ensures AuthFirst(Run(events, net).sent) <==> AllGood(events, net)
    ensures FlagTells(events, Run(events, net), net)
    decreases |events|
  {
    hide Run, AuthFirst, AllGood, FlagTells, Up, Down, Submit;
    if events == [] {
      NothingSent(net);
    } else {
      var before, e := events[..|events| - 1], events[|events| - 1];
      var s := Run(before, net);
      assert before + [e] == events;
      RunNext(before, e, net);
      AuthFirstIff(before, net);
      match e {
        case Submitted(m) =>
          if s.Connected() { SentAuth(before, s, m, net); } else { QueuedAuth(before, s, m, net); }
        case WentUp(fd) => UpAuth(before, s, fd, net);
        case WentDown(fd) => DownAuth(before, s, fd, net);
      }
    }
  }

  lemma NothingSent(net: Net)
    ensures AuthFirst(Run([], net).sent) && AllGood([], net) && FlagTells([], Run([], net), net)
  {
  }

  lemma LostStays(s: State, e: Event, net: Net)
    requires Step(s, e, net).lost == []
    ensures s.lost == []
  {
    match e {
      case Submitted(m) =>
      case WentUp(fd) => UpIs(s, fd, net); hide Up, Through;
      case WentDown(fd) =>
    }
  }

  // Neither a submission that only waits nor the end of a connection changes anything.
  lemma QueuedAuth(before: seq<Event>, s: State, m: Mail, net: Net)
    requires s == Run(before, net) && !s.Connected() && FlagTells(before, s, net)
    requires AuthFirst(s.sent) <==> AllGood(before, net)
    ensures var events, t := before + [Submitted(m)], Submit(s, m, net);
            (AuthFirst(t.sent) <==> AllGood(events, net)) && FlagTells(events, t, net)
  {
    hide Run, AuthFirst, AllGood, Follow;
    assert (before + [Submitted(m)])[..|before|] == before;
    NothingNew(before, Submitted(m), net);
  }

  lemma DownAuth(before: seq<Event>, s: State, fd: int, net: Net)
    requires s == Run(before, net) && FlagTells(before, s, net)
    requires AuthFirst(s.sent) <==> AllGood(before, net)
    ensures var events, t := before + [WentDown(fd)], Down(s, fd);
            (AuthFirst(t.sent) <==> AllGood(events, net)) && FlagTells(events, t, net)
  {
    hide Run, AuthFirst, AllGood, Follow;
    assert (before + [WentDown(fd)])[..|before|] == before;
    NothingNew(before, WentDown(fd), net);
  }

  lemma NothingNew(before: seq<Event>, e: Event, net: Net)
    requires !e.WentUp? && (e.Submitted? ==> LiveSince(before).None?)
    ensures AllGood(before + [e], net) <==> AllGood(before, net)
  {
    hide GoodBut, AllGood, GoodConnection;
    assert (before + [e])[|before|] == e;
    GoodButStays(before, e, |before|, net);
    GoodAnd(before, |before|, net);
    GoodAnd(before + [e], |before|, net);
  }

  lemma SentAuth(before: seq<Event>, s: State, m: Mail, net: Net)
    requires s == Run(before, net) && s.Connected() && FlagTells(before, s, net)
    requires AuthFirst(s.sent) <==> AllGood(before, net)
    ensures var events, t := before + [Submitted(m)], Submit(s, m, net);
            (AuthFirst(t.sent) <==> AllGood(events, net)) && FlagTells(events, t, net)
  {
    hide Run, AuthFirst, GoodBut, AllGood, LiveSince, Follow, FlushSends, AttemptsAfterFlush, Successes;
    var e, i := Submitted(m), LiveSince(before).value;
    var events := before + [e];
    NextLive(before, e, i);
    SentLaterNext(before, e, s, i, net);
    GoodButStays(before, e, i, net);
    GoodAnd(before, i, net);
    GoodAnd(events, i, net);
    if net(s.Attempts()) { NextAuth(s.sent, Delivery(m, s.connections, s.needToAuthenticate)); }
    hide SentLater;
  }

  lemma SentLaterNext(before: seq<Event>, e: Event, s: State, i: nat, net: Net)
    requires e.Submitted? && LiveSince(before) == Some(i) && LiveTells(before, s, i, net)
    ensures SentLater(before + [e], i, net) ==
            SentLater(before, i, net) + if net(s.Attempts()) then 1 else 0
  {
    hide Run, LiveSince, Follow, FlushSends, AttemptsAfterFlush;
    NextLive(before, e, i);
  }

  // A submission on the live connection.
  lemma NextLive(before: seq<Event>, e: Event, i: nat)
    requires e.Submitted? && LiveSince(before) == Some(i)
    ensures LiveSince(before + [e]) == Some(i) && (before + [e])[..i] == before[..i] && (before + [e])[i] == before[i]
    ensures Follow(before + [e], i + 1) == Follow(before, i + 1) + 1
  {
    LiveSinceIff(before, i);
    assert (before + [e])[..|before|] == before;
    FollowNext(before, e, i + 1);
  }

  lemma UpAuth(before: seq<Event>, s: State, fd: int, net: Net)
    requires s == Run(before, net) && FlagTells(before, s, net)
    requires AuthFirst(s.sent) <==> AllGood(before, net)
    ensures var events, t := before + [WentUp(fd)], Up(s, fd, net);
            (AuthFirst(t.sent) <==> AllGood(events, net)) && FlagTells(events, t, net)
  {
    hide Run, AuthFirst, GoodBut, AllGood, LiveSince, Follow, Up, FlushSends, AttemptsAfterFlush, Deliveries;
    var e, i := WentUp(fd), |before|;
    NewLive(before, e);
    UpSends(s, fd, net);
    GoodButStays(before, e, i, net);
    GoodAnd(before, i, net);
    GoodAnd(before + [e], i, net);
    FlushAuth(s.sent, s.pending[..FlushSends(s, net)], s.connections + 1, s.needToAuthenticate);
  }

  lemma NewLive(before: seq<Event>, e: Event)
    requires e.WentUp?
    ensures LiveSince(before + [e]) == Some(|before|) && (before + [e])[..|before|] == before
            && (before + [e])[|before|] == e
    ensures Follow(before + [e], |before| + 1) == 0
  {
  }

  // What coming up sends, and what the flag and the last delivery are then.
  lemma UpSends(s: State, fd: int, net: Net)
    ensures var t, k := Up(s, fd, net), FlushSends(s, net);
            && t.sent == s.sent + Deliveries(s.pending[..k], s.connections + 1, s.needToAuthenticate)
            && t.needToAuthenticate == (s.needToAuthenticate && k == 0)
            && t.Connected() && t.connections == s.connections + 1
            && t.Attempts() == AttemptsAfterFlush(s, net)
            && ((s.sent != [] ==> s.sent[|s.sent| - 1].connection <= s.connections) ==>
                  && (t.sent != [] ==> t.sent[|t.sent| - 1].connection <= t.connections)
                  && (Used(t) <==> k > 0))
  {
    hide Up, Through;
    UpIs(s, fd, net);
  }

  // How many mails a connection has carried, and how many of them log in.
  function Carried(sent: seq<Delivery>, connection: nat): nat {
    if sent == [] then 0
    else Carried(sent[..|sent| - 1], connection) + if sent[|sent| - 1].connection == connection then 1 else 0
  }

  function LogIns(sent: seq<Delivery>, connection: nat): nat {
    if sent == [] then 0
    else
      var d := sent[|sent| - 1];
      LogIns(sent[..|sent| - 1], connection) + if d.connection == connection && d.auth then 1 else 0
  }

  // What has been counted on the connection that came up at event i.
  ghost predicate CountsAre(events: seq<Event>, i: nat, sent: seq<Delivery>, net: Net)
    requires i < |events|
  {
    var s := Run(events[..i], net);
    var flushed, later := FlushSends(s, net), SentLater(events, i, net);
    && Carried(sent, s.connections + 1) == flushed + later
    && LogIns(sent, s.connections + 1) == if !s.needToAuthenticate then 0 else if flushed > 0 then 1 else later
  }

  lemma CountNext(sent: seq<Delivery>, d: Delivery, connection: nat)
    ensures Carried(sent + [d], connection) == Carried(sent, connection) + if d.connection == connection then 1 else 0
    ensures LogIns(sent + [d], connection) ==
            LogIns(sent, connection) + if d.connection == connection && d.auth then 1 else 0
  {
    assert (sent + [d])[..|sent|] == sent;
  }

  lemma {:induction false} CountFlush(sent: seq<Delivery>, ms: seq<Mail>, c: nat, auth: bool, connection: nat)
    ensures var all := sent + Deliveries(ms, c, auth);
            && Carried(all, connection) == Carried(sent, connection) + (if c == connection then |ms| else 0)
            && LogIns(all, connection) ==
               LogIns(sent, connection) + (if c == connection && auth && ms != [] then 1 else 0)
    decreases |ms|
  {
    if ms == [] {
      assert sent + [] == sent;
    } else {
      var last := |ms| - 1;
      var head, d := Deliveries(ms[..last], c, auth), Delivery(ms[last], c, auth && last == 0);
      assert Deliveries(ms, c, auth) == head + [d];
      assert sent + (head + [d]) == (sent + head) + [d];
      hide Deliveries;
      CountFlush(sent, ms[..last], c, auth, connection);
      CountNext(sent + head, d, connection);
    }
  }

  ghost predicate UpTo(sent: seq<Delivery>, connections: nat) {
    forall k :: 0 <= k < |sent| ==> sent[k].connection <= connections
  }

  lemma {:induction false} NoneYet(sent: seq<Delivery>, connections: nat)
    requires UpTo(sent, connections)
    ensures Carried(sent, connections + 1) == LogIns(sent, connections + 1) == 0
    decreases |sent|
  {
    if sent != [] { NoneYet(sent[..|sent| - 1], connections); }
  }

  // Connections are numbered as they come up.
  lemma {:induction false} Numbered(events: seq<Event>, i: nat, net: Net)
    requires i <= |events|
    ensures var s, t := Run(events[..i], net), Run(events, net);
            && UpTo(t.sent, t.connections) && s.connections <= t.connections
            && (i < |events| && events[i].WentUp? ==> s.connections < t.connections)
    decreases |events|
  {
    hide Run, UpTo;
    if events == [] {
      NoneNumbered(net);
    } else {
      var before, e := events[..|events| - 1], events[|events| - 1];
      if i < |events| {
        Numbered(before, i, net);
        assert before[..i] == events[..i];
      } else {
        Numbered(before, |before|, net);
        assert events[..i] == events;
      }
      assert before + [e] == events;
      RunNext(before, e, net);
      NumberedStep(Run(before, net), e, net);
      hide Step;
    }
  }

  lemma NoneNumbered(net: Net)
    ensures UpTo(Run([], net).sent, Run([], net).connections)
  {
  }

  lemma NumberedStep(s: State, e: Event, net: Net)
    requires UpTo(s.sent, s.connections)
    ensures var t := Step(s, e, net);
            UpTo(t.sent, t.connections) && t.connections == s.connections + if e.WentUp? then 1 else 0
  {
    hide Up;
    if e.WentUp? { UpSends(s, e.fd, net); }
  }

  // Over every run, for every connection: it carries what its flush sends and what is sent
  // on it later; and it logs in not at all when the flag was not set, once when the flush
  // sends a mail, and otherwise with every mail that it carries. In particular, a flush
  // whose first attempt fails has every later mail log in.
  lemma {:induction false} LogInsOfConnection(events: seq<Event>, i: nat, net: Net)
    requires i < |events| && events[i].WentUp?
    ensures CountsAre(events, i, Run(events, net).sent, net)
    decreases |events|
  {
    hide Run, Up, CountsAre, AllGood, AuthFirst, FlagTells;
    var before, e := events[..|events| - 1], events[|events| - 1];
    var s := Run(before, net);
    assert before + [e] == events;
    RunNext(before, e, net);
    AuthFirstIff(before, net);
    if i == |before| {
      FirstCount(before, s, e.fd, net);
    } else {
      LogInsOfConnection(before, i, net);
      Numbered(before, i, net);
      match e {
        case Submitted(m) => CountSubmitted(before, s, m, i, net);
        case WentUp(fd) => CountOther(before, s, fd, i, net);
        case WentDown(fd) => CountKept(before, e, i, s.sent, net);
      }
    }
  }

  lemma FirstCount(before: seq<Event>, s: State, fd: int, net: Net)
    requires s == Run(before, net)
    ensures CountsAre(before + [WentUp(fd)], |before|, Up(s, fd, net).sent, net)
  {
    hide Run, Up, FlushSends, Carried, LogIns, Deliveries, AttemptsAfterFlush, Follow;
    NewLive(before, WentUp(fd));
    UpSends(s, fd, net);
    Numbered(before, |before|, net);
    assert before[..|before|] == before;
    NoneYet(s.sent, s.connections);
    CountFlush(s.sent, s.pending[..FlushSends(s, net)], s.connections + 1, s.needToAuthenticate, s.connections + 1);
  }

  // An event that is no submission on this connection leaves its counts as they are.
  lemma CountKept(before: seq<Event>, e: Event, i: nat, sent: seq<Delivery>, net: Net)
    requires i < |before| && before[i].WentUp? && !(e.Submitted? && LiveSince(before) == Some(i))
    ensures CountsAre(before + [e], i, sent, net) <==> CountsAre(before, i, sent, net)
  {
    hide Run, LiveSince, Follow, Successes, FlushSends, AttemptsAfterFlush, Carried, LogIns;
    LiveSinceIff(before, i);
    FollowNext(before, e, i + 1);
    assert (before + [e])[..i] == before[..i];
  }

  lemma CountOther(before: seq<Event>, s: State, fd: int, i: nat, net: Net)
    requires s == Run(before, net) && i < |before| && before[i].WentUp? && CountsAre(before, i, s.sent, net)
    requires Run(before[..i], net).connections < s.connections
    ensures CountsAre(before + [WentUp(fd)], i, Up(s, fd, net).sent, net)
  {
    hide Run, Up, FlushSends, Carried, LogIns, Deliveries, SentLater;
    var c := Run(before[..i], net).connections + 1;
    UpSends(s, fd, net);
    CountFlush(s.sent, s.pending[..FlushSends(s, net)], s.connections + 1, s.needToAuthenticate, c);
    CountKept(before, WentUp(fd), i, Up(s, fd, net).sent, net);
  }

  lemma CountSubmitted(before: seq<Event>, s: State, m: Mail, i: nat, net: Net)
    requires s == Run(before, net) && i < |before| && before[i].WentUp? && CountsAre(before, i, s.sent, net)
    requires FlagTells(before, s, net)
    ensures CountsAre(before + [Submitted(m)], i, Submit(s, m, net).sent, net)
  {
    hide Run, LiveSince, Follow, FlushSends, AttemptsAfterFlush, Carried, LogIns, SentLater;
    var e, c := Submitted(m), Run(before[..i], net).connections + 1;
    CountNext(s.sent, Delivery(m, s.connections, s.needToAuthenticate), c);
    if LiveSince(before) == Some(i) {
      NextLive(before, e, i);
      SentLaterNext(before, e, s, i, net);
    } else {
      CountKept(before, e, i, Submit(s, m, net).sent, net);
      if LiveSince(before).Some? { OtherNumber(before, i, LiveSince(before).value, net); }
      hide CountsAre;
      CountSame(before, i, s.sent, Submit(s, m, net).sent, net);
    }
  }

  lemma CountSame(before: seq<Event>, i: nat, sent: seq<Delivery>, sent': seq<Delivery>, net: Net)
    requires i < |before| && CountsAre(before, i, sent, net)
    requires var c := Run(before[..i], net).connections + 1;
             Carried(sent', c) == Carried(sent, c) && LogIns(sent', c) == LogIns(sent, c)
    ensures CountsAre(before, i, sent', net)
  {
  }

  // Two connections have two numbers.
  lemma OtherNumber(events: seq<Event>, i: nat, j: nat, net: Net)
    requires i < |events| && j < |events| && i != j && events[i].WentUp? && events[j].WentUp?
    ensures Run(events[..i], net).connections != Run(events[..j], net).connections
  {
    var low, high := if i < j then i else j, if i < j then j else i;
    Numbered(events[..high], low, net);
    assert events[..high][..low] == events[..low];
    hide Run;
  }

  // Connections come up only because the service asked for one.
  ghost predicate OwnConnections(events: seq<Event>, net: Net) {
    forall i: nat :: i < |events| && events[i].WentUp? ==> Run(events[..i], net).connectToPending
  }

  // Then, while nothing fails, every connection is good.
  lemma LogsInOnce(events: seq<Event>, net: Net)
    requires OwnConnections(events, net) && Run(events, net).lost == []
    ensures AuthFirst(Run(events, net).sent)
  {
    hide Run, GoodConnection, AuthFirst, OwnConnections, FlagTells;
    AuthFirstIff(events, net);
    forall i: nat | i < |events| && events[i].WentUp? ensures GoodConnection(events, i, net) {
      OwnIsGood(events, i, net);
    }
  }

  lemma OwnIsGood(events: seq<Event>, i: nat, net: Net)
    requires i < |events| && events[i].WentUp? && OwnConnections(events, net) && Run(events, net).lost == []
    ensures GoodConnection(events, i, net)
  {
    hide Run, Up, FlushSends, Follow, Successes, AttemptsAfterFlush, Conserved, InOrder;
    var before := events[..i];
    NothingLost(events, i + 1, net);
    assert events[..i + 1] == before + [events[i]];
    RunNext(before, events[i], net);
    MailOrder(before, net);
    OfflineLogsIn(before, net);
    SendsAll(Run(before, net), events[i].fd, net);
  }

  lemma {:induction false} NothingLost(events: seq<Event>, i: nat, net: Net)
    requires i <= |events| && Run(events, net).lost == []
    ensures Run(events[..i], net).lost == []
    decreases |events|
  {
    if i == |events| {
      assert events[..i] == events;
    } else {
      var before := events[..|events| - 1];
      LostStays(Run(before, net), events[|events| - 1], net);
      hide Step;
      NothingLost(before, i, net);
      assert before[..i] == events[..i];
    }
  }

  // A flush that loses nothing sends everything that waits.
  lemma SendsAll(s: State, fd: int, net: Net)
    requires Up(s, fd, net).lost == []
    ensures FlushSends(s, net) == |s.pending|
  {
    hide Up, Through;
    UpIs(s, fd, net);
  }

  lemma {:induction false} OfflineLogsIn(events: seq<Event>, net: Net)
    ensures var s := Run(events, net); !s.Connected() ==> s.needToAuthenticate
    decreases |events|
  {
    if events != [] {
      OfflineLogsIn(events[..|events| - 1], net);
      match events[|events| - 1] {
        case Submitted(m) =>
        case WentUp(fd) =>
          LeavesSomeIff(Run(events[..|events| - 1], net), fd, net);
          hide Up;
        case WentDown(fd) =>
      }
    }
  }

  // On a connection that comes up by itself, with nothing to flush, every mail logs in.
  lemma LogsInTwice(a: Mail, b: Mail, fd: int)
    ensures var s := Run([WentUp(fd), Submitted(a), Submitted(b)], n => true);
            s.lost == [] && s.sent == [Delivery(a, 1, true), Delivery(b, 1, true)]
  {
    var net: Net := n => true;
    var es := [WentUp(fd), Submitted(a), Submitted(b)];
    assert es[..2] == [WentUp(fd), Submitted(a)] && es[..2][..1] == [WentUp(fd)] && es[..2][..1][..0] == [];
    assert Run([], net) == Initial();
    var s1 := Up(Initial(), fd, net);
    assert s1 == Attach(Initial(), fd);
    assert Run([WentUp(fd)], net) == s1;
    var s2 := Submit(s1, a, net);
    assert Run([WentUp(fd), Submitted(a)], net) == s2 && s2.sent == [Delivery(a, 1, true)];
  }

  // A connection that replaces a live one inherits the flag, and its mail has no log-in.
  lemma NeverLogsIn(a: Mail, b: Mail, first: int, second: int)
    ensures var s := Run([Submitted(a), WentUp(first), WentUp(second), Submitted(b)], n => true);
            s.lost == [] && s.sent == [Delivery(a, 1, true), Delivery(b, 2, false)]
  {
    var net: Net := n => true;
    var es := [Submitted(a), WentUp(first), WentUp(second), Submitted(b)];
    assert es[..3] == [Submitted(a), WentUp(first), WentUp(second)];
    assert es[..3][..2] == [Submitted(a), WentUp(first)] && es[..3][..2][..1] == [Submitted(a)]
           && es[..3][..2][..1][..0] == [];
    assert Run([], net) == Initial();
    var s1 := Submit(Initial(), a, net);
    assert Run([Submitted(a)], net) == s1 && s1.pending == [a];
    var s2 := Up(s1, first, net);
    UpIs(s1, first, net);
    assert s2.sent == [Delivery(a, 1, true)] && s2.pending == [] && !s2.needToAuthenticate;
    assert Run([Submitted(a), WentUp(first)], net) == s2;
    var s3 := Up(s2, second, net);
    assert s3 == Attach(s2, second) && Run(es[..3], net) == s3;
  }

  // On a connection that came up by itself, with nothing to flush, every single mail
  // carries AUTH LOGIN, since only flushing clears the flag.
  lemma {:induction false} LogsInEveryTime(s: State, mails: seq<Mail>, net: Net)
    requires s.Connected() && s.needToAuthenticate && forall n :: net(n)
    ensures var t := SubmitAll(s, mails, net);
            && |t.sent| == |s.sent| + |mails| && t.needToAuthenticate && t.Connected()
            && forall i :: |s.sent| <= i < |t.sent| ==> t.sent[i].auth
    decreases |mails|
  {
    if mails != [] { LogsInEveryTime(s, mails[..|mails| - 1], net); }
  }

  function SubmitAll(s: State, mails: seq<Mail>, net: Net): State {
    if mails == [] then s
    else Submit(SubmitAll(s, mails[..|mails| - 1], net), mails[|mails| - 1], net)
  }

  // Once connectToPending is set and no socket event follows, as when dialling failed at
  // once, mails pile up and the service never dials again.
  lemma {:induction false} NeverDialsAgain(s: State, mails: seq<Mail>, net: Net)
    requires !s.Connected() && s.connectToPending
    ensures var t := SubmitAll(s, mails, net);
            && t.dials == s.dials && t.sent == s.sent && t.pending == s.pending + mails
            && t.connectToPending && !t.Connected()
    decreases |mails|
  {
    if mails != [] { NeverDialsAgain(s, mails[..|mails| - 1], net); }
  }

  // ---------------------------------------------------------------- sockets

  // The socket went up, and did not go down after that.
  predicate IsUp(events: seq<Event>, i: nat, fd: int) {
    i < |events| && events[i] == WentUp(fd) && forall j :: i < j < |events| ==> events[j] != WentDown(fd)
  }

  // A mail is sent on a socket that is up, and these are the sockets that are up.
  lemma {:induction false} OnlineIff(events: seq<Event>, net: Net, fd: int)
    ensures fd in Run(events, net).online <==> exists i :: IsUp(events, i, fd)
    decreases |events|
  {
    if events != [] {
      var before, e, last := events[..|events| - 1], events[|events| - 1], |events| - 1;
      OnlineIff(before, net, fd);
      StepOnline(Run(before, net), e, net, fd);
      hide Run, Step;
      if e == WentUp(fd) {
        assert IsUp(events, last, fd);
      } else if e == WentDown(fd) {
        forall i: nat ensures !IsUp(events, i, fd) {}
      } else {
        forall i: nat | IsUp(before, i, fd) ensures IsUp(events, i, fd) {}
        forall i: nat | IsUp(events, i, fd) ensures IsUp(before, i, fd) { UpBefore(events, i, fd); }
      }
    }
  }

  lemma UpBefore(events: seq<Event>, i: nat, fd: int)
    requires IsUp(events, i, fd) && events[|events| - 1] != WentUp(fd)
    ensures IsUp(events[..|events| - 1], i, fd)
  {
  }

  lemma StepOnline(s: State, e: Event, net: Net, fd: int)
    ensures fd in Step(s, e, net).online <==> e == WentUp(fd) || (fd in s.online && e != WentDown(fd))
  {
    if e.WentUp? { FlushKeeps(Attach(s, e.fd), net); }
    hide Flush;
  }
}
