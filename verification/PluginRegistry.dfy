// The registry of media plugins. It follows a lower registry through callbacks, and the
// consumers of one leg push to the producers of the other as long as those are valid.

module PluginRegistry {
  import opened Common

  datatype Kind = AudioConsumer | VideoConsumer | AudioProducer | VideoProducer

  // A plugin object; those that left the registry live on while someone refers to them.
  datatype Plugin = Plugin(kind: Kind, valid: bool, started: bool, opposite: Option<nat>)

  // The kinds in the lower registry, the keys of the plugin map, the plugin objects by id,
  // the last id given out, and the pushes so far: to which producer, and whether the lower
  // registry still had it at that moment.
  datatype State = State(
    lower: map<nat, Kind>,
    registered: set<nat>,
    objects: map<nat, Plugin>,
    lastId: nat,
    pushes: seq<(nat, bool)>)

  function Initial(): State { State(map[], {}, map[], 0, []) }

  datatype Event =
    | Create(kind: Kind)
    | Destroy(id: nat)
    | AttachPlugins(consumer: nat, producer: nat)
    | Start(id: nat)
    | Stop(id: nat)
    | Consume(consumer: nat)

  predicate IsConsumer(k: Kind) { k.AudioConsumer? || k.VideoConsumer? }

  // The producer that a consumer is attached to on the other leg.
  function ProducerFor(k: Kind): Kind {
    if k.AudioConsumer? then AudioProducer else VideoProducer
  }

  // OnPluginCreated: only what the lower registry has under this id and kind is wrapped,
  // and an id that is taken keeps its plugin.
  function OnCreated(s: State, id: nat, kind: Kind): State {
    if id in s.lower && s.lower[id] == kind && id !in s.registered then
      s.(registered := s.registered + {id}, objects := s.objects[id := Plugin(kind, true, false, None)])
    else s
  }

  // erasePlugin: out of the map and invalid.
  function Erase(s: State, id: nat): State {
    if id in s.registered && id in s.objects then
      s.(registered := s.registered - {id}, objects := s.objects[id := s.objects[id].(valid := false)])
    else s
  }

  // start and stop of a plugin that exists.
  function Switched(s: State, id: nat, on: bool): State {
    if id in s.lower && id in s.objects then s.(objects := s.objects[id := s.objects[id].(started := on)]) else s
  }

  function Step(s: State, e: Event): State {
    match e
    // the wrapped object registers itself below, then calls back
    case Create(kind) =>
      var id := s.lastId + 1;
      OnCreated(s.(lastId := id, lower := s.lower[id := kind]), id, kind)
    // it calls back first, and is deleted below afterwards
    case Destroy(id) =>
      if id in s.lower then
        var t := Erase(s, id);
        t.(lower := t.lower - {id})
      else s
    // attachMediaProxyPlugins finds both ends in the map
    case AttachPlugins(c, p) =>
      if c in s.registered && p in s.registered && c in s.objects && p in s.objects
         && IsConsumer(s.objects[c].kind) && s.objects[p].kind == ProducerFor(s.objects[c].kind)
      then s.(objects := s.objects[c := s.objects[c].(opposite := Some(p))])
      else s
    case Start(id) => Switched(s, id, true)
    case Stop(id) => Switched(s, id, false)
    // consumeCallback, which only a plugin that exists below can call
    case Consume(c) =>
      if c in s.lower && c in s.objects then
        match s.objects[c].opposite
        case None => s
        case Some(p) =>
          if p in s.objects && s.objects[p].valid && s.objects[p].started then
            s.(pushes := s.pushes + [(p, p in s.lower)])
          else s
      else s
  }

  // A plugin is valid exactly while it is in the map, what is in the map is in the lower
  // registry under the same kind, and an attached producer fits and has its own object.
  ghost predicate InStep(s: State) {
    && (forall id :: id in s.objects ==> (s.objects[id].valid <==> id in s.registered))
    && (forall id :: id in s.registered ==> id in s.objects && id in s.lower && s.lower[id] == s.objects[id].kind)
    && (forall id :: id in s.lower ==> id <= s.lastId)
    && (forall id :: id in s.objects ==> id <= s.lastId)
    && (forall id :: id in s.objects && s.objects[id].opposite.Some? ==> Fits(s, id, s.objects[id].opposite.value))
    && (forall i :: 0 <= i < |s.pushes| ==> s.pushes[i].1)
  }

  predicate Fits(s: State, c: nat, p: nat) {
    && c in s.objects && p in s.objects
    && IsConsumer(s.objects[c].kind) && s.objects[p].kind == ProducerFor(s.objects[c].kind)
  }

  // What is in the lower registry is also in the map: nothing is missed either way.
  ghost predicate Complete(s: State) {
    s.lower.Keys == s.registered
  }

  lemma CreateKeeps(s: State, kind: Kind)
    requires InStep(s) && Complete(s)
    ensures InStep(Step(s, Create(kind))) && Complete(Step(s, Create(kind)))
  {
    var t := Step(s, Create(kind));
    assert t.objects == s.objects[t.lastId := Plugin(kind, true, false, None)];
    AttachedStay(s, t, t.lastId);
  }

  // Changing one object but not its kind or opposite keeps what is attached fitting.
  lemma AttachedStay(s: State, t: State, id: nat)
    requires forall k :: k in s.objects && s.objects[k].opposite.Some? ==> Fits(s, k, s.objects[k].opposite.value)
    requires t.objects.Keys == s.objects.Keys + {id}
    requires forall k :: k in s.objects && k != id ==> t.objects[k] == s.objects[k]
    requires id in s.objects ==> t.objects[id].kind == s.objects[id].kind
    requires t.objects[id].opposite.Some? ==> Fits(t, id, t.objects[id].opposite.value)
    ensures forall k :: k in t.objects && t.objects[k].opposite.Some? ==> Fits(t, k, t.objects[k].opposite.value)
  {
    forall k | k in t.objects && t.objects[k].opposite.Some? && k != id
      ensures Fits(t, k, t.objects[k].opposite.value)
    {
      assert Fits(s, k, s.objects[k].opposite.value);
    }
  }

  lemma StepKeeps(s: State, e: Event)
    requires InStep(s) && Complete(s)
    ensures InStep(Step(s, e)) && Complete(Step(s, e))
  {
    var t := Step(s, e);
    match e {
      case Create(kind) =>
        CreateKeeps(s, kind);
        hide Step;
      case Destroy(id) =>
        DestroyKeeps(s, id);
        hide Step;
      case AttachPlugins(c, p) =>
        AttachKeeps(s, c, p);
        hide Step;
      case Start(id) => StartedKeeps(s, id, true);
      case Stop(id) => StartedKeeps(s, id, false);
      case Consume(c) =>
        hide Fits;
        FitsAlike(s, t);
    }
  }

  lemma DestroyKeeps(s: State, id: nat)
    requires InStep(s) && Complete(s)
    ensures InStep(Step(s, Destroy(id))) && Complete(Step(s, Destroy(id)))
  {
    if id in s.lower {
      if s.objects[id].opposite.Some? { assert Fits(s, id, s.objects[id].opposite.value); }
      AttachedStay(s, Step(s, Destroy(id)), id);
      hide Fits;
    }
  }

  lemma AttachKeeps(s: State, c: nat, p: nat)
    requires InStep(s) && Complete(s)
    ensures InStep(Step(s, AttachPlugins(c, p))) && Complete(Step(s, AttachPlugins(c, p)))
  {
    var t := Step(s, AttachPlugins(c, p));
    if t != s {
      AttachedStay(s, t, c);
      hide Fits;
    }
  }

  lemma StartedKeeps(s: State, id: nat, on: bool)
    requires InStep(s) && Complete(s)
    ensures InStep(Switched(s, id, on)) && Complete(Switched(s, id, on))
  {
    var t := Switched(s, id, on);
    if t != s {
      if s.objects[id].opposite.Some? { assert Fits(s, id, s.objects[id].opposite.value); }
      AttachedStay(s, t, id);
      hide Fits;
    }
  }

  lemma FitsAlike(s: State, t: State)
    requires t.objects == s.objects
    ensures forall c, p :: Fits(t, c, p) <==> Fits(s, c, p)
  {
  }

  function Run(events: seq<Event>): State {
    if events == [] then Initial() else Step(Run(events[..|events| - 1]), events[|events| - 1])
  }

  // In every trace: valid is registered is alive below, and no media was ever pushed to a
  // producer that had been destroyed.
  lemma {:induction false} PluginsInStep(events: seq<Event>)
    ensures InStep(Run(events)) && Complete(Run(events))
    decreases |events|
  {
    if events != [] {
      PluginsInStep(events[..|events| - 1]);
      StepKeeps(Run(events[..|events| - 1]), events[|events| - 1]);
    }
  }

  // A consumer pushes exactly when its opposite is started and still alive below; once
  // that is destroyed, nothing it consumes goes anywhere, although it still refers to it.
  lemma PushesIffAlive(events: seq<Event>, c: nat, p: nat)
    requires c in Run(events).lower && c in Run(events).objects && Run(events).objects[c].opposite == Some(p)
    ensures
      var s, t := Run(events), Run(events + [Consume(c)]);
      && p in s.objects
      && t.pushes == s.pushes + if p in s.lower && s.objects[p].started then [(p, true)] else []
  {
    PluginsInStep(events);
    var all := events + [Consume(c)];
    assert all[..|all| - 1] == events;
    assert Fits(Run(events), c, p);
    hide Run;
    assert Run(all) == Step(Run(events), Consume(c)) by { RunNext(events, Consume(c)); }
  }

  lemma RunNext(events: seq<Event>, e: Event)
    ensures Run(events + [e]) == Step(Run(events), e)
  {
    assert (events + [e])[..|events|] == events;
  }

  // ----------------------------------------------------------------- history

  function Creates(events: seq<Event>): nat {
    if events == [] then 0 else Creates(events[..|events| - 1]) + if events[|events| - 1].Create? then 1 else 0
  }

  // The event that made the plugin with this id: ids are numbers of creations.
  predicate Makes(events: seq<Event>, i: nat, id: nat, kind: Kind) {
    i < |events| && events[i] == Create(kind) && Creates(events[..i]) + 1 == id
  }

  predicate DestroyedAfter(events: seq<Event>, i: nat, id: nat) {
    exists j :: i < j < |events| && events[j] == Destroy(id)
  }

  ghost predicate LivesAs(events: seq<Event>, id: nat, kind: Kind) {
    exists i: nat :: Makes(events, i, id, kind) && !DestroyedAfter(events, i, id)
  }

  lemma LivesAsNext(before: seq<Event>, e: Event, id: nat, kind: Kind)
    ensures LivesAs(before + [e], id, kind) <==>
            || (e == Create(kind) && Creates(before) + 1 == id)
            || (LivesAs(before, id, kind) && e != Destroy(id))
  {
    var events, last := before + [e], |before|;
    assert events[..last] == before;
    forall i: nat | i < last ensures events[..i] == before[..i] && events[i] == before[i] {}
    if e == Create(kind) && Creates(before) + 1 == id {
      assert Makes(events, last, id, kind) && !DestroyedAfter(events, last, id);
    }
    forall i: nat | Makes(before, i, id, kind) && !DestroyedAfter(before, i, id) && e != Destroy(id)
      ensures Makes(events, i, id, kind) && !DestroyedAfter(events, i, id) {}
    forall i: nat | Makes(events, i, id, kind) && !DestroyedAfter(events, i, id) && i < last
      ensures Makes(before, i, id, kind) && !DestroyedAfter(before, i, id) && e != Destroy(id)
    {
      assert events[last] == e;
      forall j | i < j < last ensures before[j] != Destroy(id) { assert events[j] == before[j]; }
    }
    hide Creates;
  }

  // What the lower registry has, over every run: a plugin is in it, and is of a kind, exactly
  // when the creation with its number was of that kind and it was not destroyed after that.
  lemma {:induction false} LowerIff(events: seq<Event>, id: nat, kind: Kind)
    ensures Run(events).lastId == Creates(events)
    ensures id in Run(events).lower && Run(events).lower[id] == kind <==> LivesAs(events, id, kind)
    decreases |events|
  {
    if events != [] {
      var before, e := events[..|events| - 1], events[|events| - 1];
      assert before + [e] == events;
      LowerIff(before, id, kind);
      LivesAsNext(before, e, id, kind);
      PluginsInStep(before);
      NotYetMade(before, Creates(before) + 1, kind);
      hide Run, LivesAs, Creates, Complete;
    }
  }

  // No plugin has the next number yet.
  lemma NotYetMade(events: seq<Event>, id: nat, kind: Kind)
    requires id > Creates(events)
    ensures !LivesAs(events, id, kind)
  {
    forall i: nat | i < |events| && events[i].Create? ensures Creates(events[..i]) + 1 <= Creates(events) {
      CreatesGrow(events, i);
    }
  }

  lemma {:induction false} CreatesGrow(events: seq<Event>, i: nat)
    requires i < |events| && events[i].Create?
    ensures Creates(events[..i]) + 1 <= Creates(events)
    decreases |events|
  {
    if i < |events| - 1 {
      assert events[..|events| - 1][..i] == events[..i];
      CreatesGrow(events[..|events| - 1], i);
    }
  }

  // An event starts the plugin while it exists below, and none stops it so after that.
  ghost predicate LeftOn(events: seq<Event>, i: nat, id: nat) {
    Switches(events, i, Start(id), id) && forall j :: i < j < |events| ==> !Switches(events, j, Stop(id), id)
  }

  predicate Switches(events: seq<Event>, i: nat, e: Event, id: nat) {
    i < |events| && events[i] == e && id in Run(events[..i]).lower
  }

  lemma PrefixesAre(before: seq<Event>, e: Event, i: nat)
    requires i <= |before|
    ensures (before + [e])[..i] == before[..i] && (before + [e])[|before|] == e && before[..|before|] == before
    ensures i < |before| ==> (before + [e])[i] == before[i]
  {
  }

  lemma SwitchesAlike(before: seq<Event>, e: Event, id: nat)
    ensures forall i: nat, x :: i < |before| ==> (Switches(before + [e], i, x, id) <==> Switches(before, i, x, id))
    ensures forall x :: Switches(before + [e], |before|, x, id) <==> x == e && id in Run(before).lower
    ensures forall i: nat, x :: Switches(before, i, x, id) ==> i < |before|
    ensures forall i: nat, x :: Switches(before + [e], i, x, id) ==> i <= |before|
  {
    hide Run;
    forall i: nat | i <= |before| { PrefixesAre(before, e, i); }
  }

  lemma LeftOnNext(before: seq<Event>, e: Event, id: nat)
    ensures (exists i: nat :: LeftOn(before + [e], i, id)) <==>
            || (e == Start(id) && id in Run(before).lower)
            || ((exists i: nat :: LeftOn(before, i, id)) && !(e == Stop(id) && id in Run(before).lower))
  {
    hide Switches;
    SwitchesAlike(before, e, id);
    if e == Start(id) && id in Run(before).lower { assert LeftOn(before + [e], |before|, id); }
    forall i: nat | LeftOn(before, i, id) && !(e == Stop(id) && id in Run(before).lower)
      ensures LeftOn(before + [e], i, id) {}
    assert Switches(before + [e], |before|, Stop(id), id) <==> e == Stop(id) && id in Run(before).lower;
    forall i: nat | i < |before| && LeftOn(before + [e], i, id)
      ensures LeftOn(before, i, id) && !(e == Stop(id) && id in Run(before).lower) {}
  }

  // A plugin is started, over every run, exactly when the last event that started or stopped
  // it while it existed below has started it.
  lemma {:induction false} StartedIff(events: seq<Event>, id: nat)
    ensures id in Run(events).objects && Run(events).objects[id].started <==> exists i: nat :: LeftOn(events, i, id)
    decreases |events|
  {
    hide LeftOn, Step;
    if events == [] {
      NeverOn(id);
    } else {
      var before, e := events[..|events| - 1], events[|events| - 1];
      assert before + [e] == events;
      StartedIff(before, id);
      PluginsInStep(before);
      LeftOnNext(before, e, id);
      NewIsOff(Run(before), id, e);
      hide InStep, Complete;
    }
  }

  lemma NeverOn(id: nat)
    ensures !exists i: nat :: LeftOn([], i, id)
  {
  }

  // What an event does to the flag of one plugin.
  lemma NewIsOff(s: State, id: nat, e: Event)
    requires InStep(s) && Complete(s)
    ensures var t := Step(s, e);
            id in t.objects && t.objects[id].started <==>
            || (e == Start(id) && id in s.lower)
            || (id in s.objects && s.objects[id].started && !(e == Stop(id) && id in s.lower))
  {
  }

  // Both ends exist, and audio goes with audio and video with video.
  predicate Matches(s: State, c: nat, p: nat) {
    && c in s.lower && p in s.lower
    && ((s.lower[c] == AudioConsumer && s.lower[p] == AudioProducer) ||
        (s.lower[c] == VideoConsumer && s.lower[p] == VideoProducer))
  }

  predicate AttachesAt(events: seq<Event>, i: nat, c: nat, p: nat) {
    i < |events| && events[i] == AttachPlugins(c, p) && Matches(Run(events[..i]), c, p)
  }

  ghost predicate LeftAttached(events: seq<Event>, i: nat, c: nat, p: nat) {
    AttachesAt(events, i, c, p) && forall j, q :: i < j < |events| ==> !AttachesAt(events, j, c, q)
  }

  lemma AttachesAlike(before: seq<Event>, e: Event, c: nat)
    ensures forall i: nat, p :: i < |before| ==> (AttachesAt(before + [e], i, c, p) <==> AttachesAt(before, i, c, p))
    ensures forall p ::
              AttachesAt(before + [e], |before|, c, p) <==> e == AttachPlugins(c, p) && Matches(Run(before), c, p)
    ensures forall i: nat, p :: AttachesAt(before + [e], i, c, p) ==> i <= |before|
    ensures forall i: nat, p :: AttachesAt(before, i, c, p) ==> i < |before|
  {
    hide Run, Matches;
    forall i: nat | i <= |before| { PrefixesAre(before, e, i); }
  }

  predicate AttachesNow(s: State, e: Event, c: nat) {
    e.AttachPlugins? && e.consumer == c && Matches(s, c, e.producer)
  }

  lemma LeftAttachedNext(before: seq<Event>, e: Event, c: nat, p: nat)
    ensures (exists i: nat :: LeftAttached(before + [e], i, c, p)) <==>
            if AttachesNow(Run(before), e, c) then e.producer == p else exists i: nat :: LeftAttached(before, i, c, p)
  {
    hide AttachesAt, Matches;
    AttachesAlike(before, e, c);
    var now := AttachesNow(Run(before), e, c);
    if now {
      assert AttachesAt(before + [e], |before|, c, e.producer);
      if e.producer == p { assert LeftAttached(before + [e], |before|, c, p); }
    }
    forall i: nat | LeftAttached(before, i, c, p) && !now ensures LeftAttached(before + [e], i, c, p) {}
    forall i: nat | i < |before| && LeftAttached(before + [e], i, c, p) ensures LeftAttached(before, i, c, p) && !now {}
  }

  // What a consumer is attached to, over every run: the producer of the last event that
  // attached it to one that matches.
  lemma {:induction false} AttachedIff(events: seq<Event>, c: nat, p: nat)
    ensures c in Run(events).objects && Run(events).objects[c].opposite == Some(p) <==>
            exists i: nat :: LeftAttached(events, i, c, p)
    decreases |events|
  {
    hide LeftAttached, Step;
    if events == [] {
      NeverAttached(c, p);
    } else {
      var before, e := events[..|events| - 1], events[|events| - 1];
      assert before + [e] == events;
      AttachedIff(before, c, p);
      PluginsInStep(before);
      LeftAttachedNext(before, e, c, p);
      AttachedNext(Run(before), c, p, e);
      hide InStep, Complete;
    }
  }

  lemma NeverAttached(c: nat, p: nat)
    ensures !exists i: nat :: LeftAttached([], i, c, p)
  {
  }

  lemma AttachedNext(s: State, c: nat, p: nat, e: Event)
    requires InStep(s) && Complete(s)
    ensures var t := Step(s, e);
            c in t.objects && t.objects[c].opposite == Some(p) <==>
            if AttachesNow(s, e, c) then e.producer == p
            else c in s.objects && s.objects[c].opposite == Some(p)
  {
  }

  // --------------------------------------------------------------- registry

  class MPProxyPluginMgr {
    var lower: map<nat, Kind>
    var registered: set<nat>
    var objects: map<nat, Plugin>
    var lastId: nat
    var pushes: seq<(nat, bool)>

    constructor ()
      ensures View() == Initial()
    {
      lower, registered, objects, lastId, pushes := map[], {}, map[], 0, [];
    }

    function View(): State
      reads this
    {
      State(lower, registered, objects, lastId, pushes)
    }

    method OnPluginCreated(id: nat, kind: Kind)
      modifies `registered, `objects
      ensures View() == OnCreated(old(View()), id, kind)
    {
      if id in lower && lower[id] == kind {
        if id !in registered {
          registered := registered + {id};
          objects := objects[id := Plugin(kind, true, false, None)];
        }
      }
    }

    method OnPluginDestroyed(id: nat)
      modifies `registered, `objects
      ensures View() == Erase(old(View()), id)
    {
      if id in registered && id in objects {
        registered := registered - {id};
        objects := objects[id := objects[id].(valid := false)];
      }
    }

    // A plugin that is made below; it keeps the two registries in step.
    method CreatePlugin(kind: Kind) returns (id: nat)
      requires InStep(View()) && Complete(View())
      modifies this
      ensures View() == Step(old(View()), Create(kind)) && InStep(View()) && Complete(View())
      ensures id !in old(objects) && id in registered && objects[id].valid
    {
      StepKeeps(View(), Create(kind));
      id := lastId + 1;
      lastId := id;
      lower := lower[id := kind];
      OnPluginCreated(id, kind);
    }

    method DestroyPlugin(id: nat)
      requires InStep(View()) && Complete(View())
      modifies this
      ensures View() == Step(old(View()), Destroy(id)) && InStep(View()) && Complete(View())
      ensures id !in lower && id !in registered
    {
      StepKeeps(View(), Destroy(id));
      if id in lower {
        OnPluginDestroyed(id);
        lower := lower - {id};
      }
    }

    method ConsumeCallback(c: nat)
      requires InStep(View()) && Complete(View())
      modifies `pushes
      ensures View() == Step(old(View()), Consume(c)) && InStep(View())
    {
      StepKeeps(View(), Consume(c));
      if c in lower && c in objects {
        var opposite := objects[c].opposite;
        if opposite.Some? && opposite.value in objects && objects[opposite.value].valid {
          if objects[opposite.value].started {
            pushes := pushes + [(opposite.value, opposite.value in lower)];
          }
        }
      }
    }
  }
}
