/** The synchronizer (`DefaultMapKitSynchronizer`): region enter and exit
    events and add/remove/refresh requests, each treated as one atomic step
    on a state record, although the source splits a step between the
    synchronizer's scheduler and the storage scheduler. A step
    returns the new state together with the monitoring commands it issued,
    the notifications it emitted and whether it saved the geofence list. */
module Synchronizer {
  import opened Wrappers
  import opened Sequences
  import opened GeofenceModel
  import opened Handler

  /** `UserAction`. */
  datatype UserAction = Add | Remove | Refresh

  /** `stored` is the persisted geofence list (replaced wholesale on save and
      re-read by every step), `pending` is `interceptedGeofences`, `current`
      the value held by the current-geofence relay. */
  datatype State = State(stored: seq<Geofence>, pending: seq<Selection>, current: Option<Selection>)

  /** What subscribers see: a new current geofence, or the geofence list. */
  datatype Notice = CurrentGeofence(selection: Option<Selection>) | TotalGeofences(geofences: seq<Geofence>)

  datatype Outcome = Outcome(state: State, commands: seq<Command>, notices: seq<Notice>, saved: bool)

  /** The state at start-up: nothing pending, nothing selected. */
  function Initial(stored: seq<Geofence>): (st: State)
    ensures st.stored == stored && st.pending == [] && st.current.None?
  {
    State(stored, [], None)
  }

  /** The pending/current invariant: nothing is current exactly when nothing
      is pending; a current selection denotes a pending region; no region is
      pending twice. */
  predicate Valid(st: State)
  {
    && (st.current.None? <==> |st.pending| == 0)
    && (st.current.Some? ==> HasKey(st.pending, st.current.value))
    && DistinctKeys(st.pending)
  }

  /** The enter handler's flag: a resolved selection becomes current when
      nothing is current, or when it is the other region of the current
      geofence (in either direction). */
  predicate Promotes(previous: Option<Selection>, s: Selection)
  {
    || previous.None?
    || (SameGeofence(previous.value.geofence, s.geofence) && previous.value.kind != s.kind)
  }

  /** A step that changes nothing and emits nothing. */
  function Unchanged(st: State): (o: Outcome)
    ensures o.state == st && o.commands == [] && o.notices == [] && !o.saved
  {
    Outcome(st, [], [], false)
  }

  // ---------------------------------------------------------------------------
  // Region events

  /** The did-enter-region handler. */
  function Enter(st: State, regionId: string): (o: Outcome)
    ensures o.state.stored == st.stored && o.commands == [] && !o.saved
    ensures Resolve(st.stored, regionId).Err? ==> o == Unchanged(st)
    ensures Resolve(st.stored, regionId).Ok? ==>
      var s := Resolve(st.stored, regionId).value;
      && HasKey(o.state.pending, s)
      && (HasKey(st.pending, s) ==> o.state.pending == st.pending)
      && (!HasKey(st.pending, s) ==> o.state.pending == st.pending + [s])
      && (st.current.None? ==> o.state.current == Some(s))
      && (st.current.Some? && st.current.value.geofence.id == s.geofence.id && st.current.value.kind != s.kind
          ==> o.state.current == Some(s))
      && (st.current.Some? && (st.current.value.geofence.id != s.geofence.id || st.current.value.kind == s.kind)
          ==> o.state.current == st.current)
      && o.notices == (if Promotes(st.current, s) then [CurrentGeofence(Some(s))] else [])
  {
    match Resolve(st.stored, regionId)
    case Err(_) => Unchanged(st)
    case Ok(s) =>
      var promote := Promotes(st.current, s);
      var pending := Insert(st.pending, s);
      var current := if promote then Some(s) else st.current;
      Outcome(State(st.stored, pending, current), [],
              if promote then [CurrentGeofence(Some(s))] else [], false)
  }

  /** The did-exit-region handler: the region leaves the pending list; if it
      was current, the replacement is chosen relative to the oldest entry
      still pending, or nothing when none is. */
  function Exit(st: State, regionId: string): (o: Outcome)
    ensures o.state.stored == st.stored && o.commands == [] && !o.saved
    ensures Resolve(st.stored, regionId).Err? ==> o == Unchanged(st)
    ensures Resolve(st.stored, regionId).Ok? ==>
      var s := Resolve(st.stored, regionId).value;
      && o.state.pending == RemoveMatching(st.pending, s)
      && (!(st.current.Some? && SameSelection(st.current.value, s))
          ==> o.state.current == st.current && o.notices == [])
      && (st.current.Some? && SameSelection(st.current.value, s) ==>
          && o.notices == [CurrentGeofence(o.state.current)]
          && (|o.state.pending| == 0 ==> o.state.current.None?)
          && (|o.state.pending| > 0 ==>
                o.state.current == Some(SelectNext(o.state.pending, o.state.pending[0]))))
  {
    match Resolve(st.stored, regionId)
    case Err(_) => Unchanged(st)
    case Ok(s) =>
      var wasCurrent := st.current.Some? && SameSelection(st.current.value, s);
      var pending := RemoveMatching(st.pending, s);
      if !wasCurrent then
        Outcome(State(st.stored, pending, st.current), [], [], false)
      else
        var current := if |pending| == 0 then None else Some(SelectNext(pending, pending[0]));
        Outcome(State(st.stored, pending, current), [], [CurrentGeofence(current)], false)
  }

  // ---------------------------------------------------------------------------
  // Add, remove, refresh

  /** `updateGeofence(_:userAction:)`. Add appends without looking for an
      existing id; remove deletes the first entry with the id or fails;
      refresh only re-arms monitoring. Every success emits the resulting
      list; pending and current are never touched. */
  function UpdateGeofence(st: State, g: Geofence, action: UserAction): (r: Result<Outcome, SyncError>)
    ensures r.Ok? ==> r.value.state.pending == st.pending && r.value.state.current == st.current
    ensures r.Ok? ==> r.value.notices == [TotalGeofences(r.value.state.stored)]
    ensures action == Add ==>
      && r.Ok?
      && r.value.state.stored == st.stored + [g]
      && r.value.commands == [DrawAndStartMonitor(g)]
      && r.value.saved
    ensures action == Refresh ==>
      && r.Ok?
      && r.value.state == st
      && r.value.commands == [DrawAndStartMonitor(g)]
      && !r.value.saved
    ensures action == Remove ==> (r.Err? <==> forall x :: x in st.stored ==> x.id != g.id)
    ensures action == Remove && r.Err? ==> r.error == GeofenceNotFound
    ensures action == Remove && r.Ok? ==>
      && |r.value.state.stored| == |st.stored| - 1
      && (exists i :: && 0 <= i < |st.stored|
                      && st.stored[i].id == g.id
                      && (forall j :: 0 <= j < i ==> st.stored[j].id != g.id)
                      && r.value.state.stored == st.stored[..i] + st.stored[i + 1..])
      && r.value.commands == [RemoveAndStopMonitor(g)]
      && r.value.saved
  {
    match action
    case Add =>
      var list := st.stored + [g];
      Ok(Outcome(State(list, st.pending, st.current), [DrawAndStartMonitor(g)], [TotalGeofences(list)], true))
    case Remove =>
      var isTarget := (x: Geofence) => SameGeofence(x, g);
      (match FirstIndex(st.stored, isTarget)
       case None =>
         FirstIndexNone(st.stored, isTarget);
         Err(GeofenceNotFound)
       case Some(i) =>
         var list := st.stored[..i] + st.stored[i + 1..];
         Ok(Outcome(State(list, st.pending, st.current), [RemoveAndStopMonitor(g)], [TotalGeofences(list)], true)))
    case Refresh =>
      Ok(Outcome(st, [DrawAndStartMonitor(g)], [TotalGeofences(st.stored)], false))
  }

  // ---------------------------------------------------------------------------
  // Runs of events

  datatype Event =
    | Entered(regionId: string)
    | Exited(regionId: string)
    | Updated(geofence: Geofence, action: UserAction)

  /** One event, treated as one atomic step. A failed update changes nothing:
      no command, no notification, no save. */
  function Step(st: State, e: Event): (o: Outcome)
    ensures e.Updated? && UpdateGeofence(st, e.geofence, e.action).Err? ==> o == Unchanged(st)
    ensures !e.Updated? ==> o.state.stored == st.stored
    ensures !e.Updated? ==> o.commands == [] && !o.saved
    ensures e.Updated? ==> o.state.pending == st.pending && o.state.current == st.current
  {
    match e
    case Entered(regionId) => Enter(st, regionId)
    case Exited(regionId) => Exit(st, regionId)
    case Updated(g, action) =>
      match UpdateGeofence(st, g, action)
      case Ok(o) => o
      case Err(_) => Unchanged(st)
  }

  // ---------------------------------------------------------------------------
  // The repeat filter in front of the region handlers

  /** The pair each region-event chain's `distinctUntilChanged` compares: the
      region id, and the id of the geofence current when the event arrives
      (none when nothing is current). */
  datatype EventKey = EventKey(regionId: string, currentId: Option<string>)

  /** The id of the current geofence, if any. */
  function CurrentId(st: State): (id: Option<string>)
    ensures id.Some? <==> st.current.Some?
    ensures id.Some? ==> id.value == st.current.value.geofence.id
  {
    if st.current.Some? then Some(st.current.value.geofence.id) else None
  }

  function KeyOf(st: State, regionId: string): EventKey
  {
    EventKey(regionId, CurrentId(st))
  }

  /** The synchronizer as its subscribers see it: the handler state and, for
      the enter chain and the exit chain, the last pair that chain's
      `distinctUntilChanged` let through and the region id the chain's event
      subject still holds. The handler an event reaches resets the subject to
      `nil`, which the `filter` in front of the repeat filter drops. An
      event the repeat filter drops never reaches the handler, so its region
      id stays in the subject, and `combineLatest` pairs it again with every
      new current geofence. */
  datatype Engine = Engine(state: State, lastEnter: Option<EventKey>, lastExit: Option<EventKey>,
                           heldEnter: Option<string>, heldExit: Option<string>)

  /** Start-up: nothing has passed either chain yet, and neither subject has
      emitted. */
  function Start(stored: seq<Geofence>): (en: Engine)
    ensures en.state == Initial(stored) && en.lastEnter.None? && en.lastExit.None?
    ensures en.heldEnter.None? && en.heldExit.None?
  {
    Engine(Initial(stored), None, None, None, None)
  }

  /** A region event is dropped when its pair equals the last pair its chain
      let through, however many other events came in between. */
  predicate Dropped(en: Engine, e: Event)
  {
    match e
    case Entered(regionId) => en.lastEnter == Some(KeyOf(en.state, regionId))
    case Exited(regionId) => en.lastExit == Some(KeyOf(en.state, regionId))
    case Updated(_, _) => false
  }

  /** A held region id is still held only because its chain would drop it
      again: the pair it makes with the current geofence is its chain's last
      pair. */
  predicate Settled(en: Engine)
  {
    && (en.heldEnter.Some? ==> Dropped(en, Entered(en.heldEnter.value)))
    && (en.heldExit.Some? ==> Dropped(en, Exited(en.heldExit.value)))
  }

  /** What a delivered event leaves behind and emits. */
  datatype Trace = Trace(engine: Engine, commands: seq<Command>, notices: seq<Notice>, saved: bool)

  /** Two traces one after the other. */
  function Then(first: Trace, rest: Trace): (t: Trace)
    ensures t.engine == rest.engine && t.saved == (first.saved || rest.saved)
    ensures t.commands == first.commands + rest.commands && t.notices == first.notices + rest.notices
  {
    Trace(rest.engine, first.commands + rest.commands, first.notices + rest.notices, first.saved || rest.saved)
  }

  /** An event the repeat filter lets through: its handler runs, and a region
      event's pair becomes its chain's last pair while its subject is reset. */
  function Pass(en: Engine, e: Event): (t: Trace)
    ensures t.engine.state == Step(en.state, e).state && t.commands == Step(en.state, e).commands
    ensures t.notices == Step(en.state, e).notices && t.saved == Step(en.state, e).saved
    ensures t.engine.lastEnter == if e.Entered? then Some(KeyOf(en.state, e.regionId)) else en.lastEnter
    ensures t.engine.lastExit == if e.Exited? then Some(KeyOf(en.state, e.regionId)) else en.lastExit
    ensures t.engine.heldEnter == if e.Entered? then None else en.heldEnter
    ensures t.engine.heldExit == if e.Exited? then None else en.heldExit
  {
    var o := Step(en.state, e);
    var lastEnter := if e.Entered? then Some(KeyOf(en.state, e.regionId)) else en.lastEnter;
    var lastExit := if e.Exited? then Some(KeyOf(en.state, e.regionId)) else en.lastExit;
    var heldEnter := if e.Entered? then None else en.heldEnter;
    var heldExit := if e.Exited? then None else en.heldExit;
    Trace(Engine(o.state, lastEnter, lastExit, heldEnter, heldExit), o.commands, o.notices, o.saved)
  }

  /** How many region ids the two subjects hold. */
  function HeldCount(en: Engine): nat
  {
    (if en.heldEnter.Some? then 1 else 0) + (if en.heldExit.Some? then 1 else 0)
  }

  /** The re-emissions `combineLatest` makes when the current geofence
      changes: a held region id whose new pair the repeat filter lets
      through reaches its handler, the enter chain's first because it
      subscribed first, until every id still held would be dropped. */
  function Replay(en: Engine): (t: Trace)
    ensures Settled(t.engine)
    ensures Settled(en) ==> t == Trace(en, [], [], false)
    ensures t.engine.state.stored == en.state.stored && t.commands == [] && !t.saved
    ensures HeldCount(t.engine) <= HeldCount(en)
    decreases HeldCount(en)
  {
    if en.heldEnter.Some? && !Dropped(en, Entered(en.heldEnter.value)) then
      var first := Pass(en, Entered(en.heldEnter.value));
      Then(first, Replay(first.engine))
    else if en.heldExit.Some? && !Dropped(en, Exited(en.heldExit.value)) then
      var first := Pass(en, Exited(en.heldExit.value));
      Then(first, Replay(first.engine))
    else
      Trace(en, [], [], false)
  }

  /** One event as it arrives. A region event the repeat filter drops only
      stays held by its chain's subject. Any other event reaches its handler
      (an update goes straight to `updateGeofence`), and then the held ids
      the new current geofence lets through are replayed. */
  function Deliver(en: Engine, e: Event): (t: Trace)
    ensures Dropped(en, e) ==>
      && t.engine.state == en.state && t.commands == [] && t.notices == [] && !t.saved
      && t.engine.lastEnter == en.lastEnter && t.engine.lastExit == en.lastExit
      && t.engine.heldEnter == (if e.Entered? then Some(e.regionId) else en.heldEnter)
      && t.engine.heldExit == (if e.Exited? then Some(e.regionId) else en.heldExit)
    ensures !Dropped(en, e) ==> Step(en.state, e).notices <= t.notices
    ensures !Dropped(en, e) && Settled(en) && CurrentId(Step(en.state, e).state) == CurrentId(en.state) ==>
      && t.engine.state == Step(en.state, e).state && t.notices == Step(en.state, e).notices
      && t.commands == Step(en.state, e).commands && t.saved == Step(en.state, e).saved
    ensures !e.Updated? ==> t.engine.state.stored == en.state.stored && t.commands == [] && !t.saved
    ensures Settled(en) ==> Settled(t.engine)
  {
    if Dropped(en, e) then
      var held := if e.Entered? then en.(heldEnter := Some(e.regionId)) else en.(heldExit := Some(e.regionId));
      Trace(held, [], [], false)
    else
      var first := Pass(en, e);
      Then(first, Replay(first.engine))
  }

  /** A sequence of events, in arrival order, with the commands and
      notifications of all deliveries logged in order. */
  function Run(en: Engine, events: seq<Event>): (t: Trace)
    ensures |events| == 0 ==> t == Trace(en, [], [], false)
    decreases |events|
  {
    if |events| == 0 then Trace(en, [], [], false)
    else
      var first := Deliver(en, events[0]);
      Then(first, Run(first.engine, events[1..]))
  }

  /** Region events alone never touch the stored list, issue no command and
      save nothing. */
  lemma {:induction false} RegionRunKeepsStored(en: Engine, events: seq<Event>)
    requires forall i :: 0 <= i < |events| ==> !events[i].Updated?
    ensures Run(en, events).engine.state.stored == en.state.stored
    ensures Run(en, events).commands == [] && !Run(en, events).saved
    decreases |events|
  {
    if |events| > 0 {
      assert forall i :: 0 <= i < |events[1..]| ==> events[1..][i] == events[i + 1];
      RegionRunKeepsStored(Deliver(en, events[0]).engine, events[1..]);
    }
  }

  /** After any run, a region id still held would be dropped again. */
  lemma {:induction false} RunKeepsSettled(en: Engine, events: seq<Event>)
    requires Settled(en)
    ensures Settled(Run(en, events).engine)
    decreases |events|
  {
    if |events| > 0 {
      RunKeepsSettled(Deliver(en, events[0]).engine, events[1..]);
    }
  }

  /** A held entry whose new pair passes the filter reaches the enter
      handler, before any held exit is looked at. When it is the only held
      id, the replay is exactly that handler's step. */
  lemma ReplayReleasesHeldEnter(en: Engine, h: string)
    requires en.heldEnter == Some(h) && !Dropped(en, Entered(h))
    ensures Step(en.state, Entered(h)).notices <= Replay(en).notices
    ensures en.heldExit.None? ==>
      && Replay(en).engine.state == Step(en.state, Entered(h)).state
      && Replay(en).notices == Step(en.state, Entered(h)).notices
      && Replay(en).engine.heldEnter.None?
  {
    var first := Pass(en, Entered(h));
    if en.heldExit.None? {
      assert Replay(first.engine) == Trace(first.engine, [], [], false);
    }
  }

  /** A held exit whose new pair passes the filter reaches the exit handler
      once no held entry would pass first. When it is the only held id, the
      replay is exactly that handler's step. */
  lemma ReplayReleasesHeldExit(en: Engine, h: string)
    requires en.heldExit == Some(h) && !Dropped(en, Exited(h))
    requires en.heldEnter.Some? ==> Dropped(en, Entered(en.heldEnter.value))
    ensures Step(en.state, Exited(h)).notices <= Replay(en).notices
    ensures en.heldEnter.None? ==>
      && Replay(en).engine.state == Step(en.state, Exited(h)).state
      && Replay(en).notices == Step(en.state, Exited(h)).notices
      && Replay(en).engine.heldExit.None?
  {
    var first := Pass(en, Exited(h));
    if en.heldEnter.None? {
      assert Replay(first.engine) == Trace(first.engine, [], [], false);
    }
  }

  /** A run extended by one event is the run followed by the delivery of
      that event where the run ends: the engine is the delivery's, and the
      logged commands, notifications and save are the run's followed by the
      delivery's. */
  lemma {:induction false} RunSnoc(en: Engine, events: seq<Event>, e: Event)
    ensures Run(en, events + [e]) == Then(Run(en, events), Deliver(Run(en, events).engine, e))
    decreases |events|
  {
    if |events| == 0 {
      var last := Deliver(en, e);
      assert Run(en, [e]) == Then(last, Trace(last.engine, [], [], false));
      assert last.commands + [] == last.commands && last.notices + [] == last.notices;
      assert events + [e] == [e];
    } else {
      var first := Deliver(en, events[0]);
      var rest := Run(first.engine, events[1..]);
      var last := Deliver(rest.engine, e);
      assert Run(en, events + [e]) == Then(first, Run(first.engine, events[1..] + [e])) by {
        assert (events + [e])[0] == events[0];
        assert (events + [e])[1..] == events[1..] + [e];
      }
      RunSnoc(first.engine, events[1..], e);
      ThenAssoc(first, rest, last);
    }
  }

  /** Appending traces is associative. */
  lemma ThenAssoc(a: Trace, b: Trace, c: Trace)
    ensures Then(a, Then(b, c)) == Then(Then(a, b), c)
  {
    assert a.commands + (b.commands + c.commands) == (a.commands + b.commands) + c.commands;
    assert a.notices + (b.notices + c.notices) == (a.notices + b.notices) + c.notices;
  }

  // ---------------------------------------------------------------------------
  // The invariant

  lemma EnterPreservesValid(st: State, regionId: string)
    requires Valid(st)
    ensures Valid(Enter(st, regionId).state)
  {
    if Resolve(st.stored, regionId).Ok? {
      var s := Resolve(st.stored, regionId).value;
      var o := Enter(st, regionId);
      InsertIdempotent(st.pending, s);
      if st.current.Some? && o.state.current == st.current {
        var x :| x in st.pending && SameSelection(x, st.current.value);
        assert x in o.state.pending;
      }
    }
  }

  lemma ExitPreservesValid(st: State, regionId: string)
    requires Valid(st)
    ensures Valid(Exit(st, regionId).state)
  {
    if Resolve(st.stored, regionId).Ok? {
      var s := Resolve(st.stored, regionId).value;
      var o := Exit(st, regionId);
      var pending := o.state.pending;
      DistinctKeysRemove(st.pending, s);
      if st.current.Some? && SameSelection(st.current.value, s) {
        if |pending| > 0 {
          assert pending[0] in pending;
          var next := SelectNext(pending, pending[0]);
          assert next in pending;
        }
      } else if st.current.Some? {
        var x :| x in st.pending && SameSelection(x, st.current.value);
        assert x in pending;
      }
    }
  }

  lemma UpdatePreservesValid(st: State, g: Geofence, action: UserAction)
    requires Valid(st)
    ensures UpdateGeofence(st, g, action).Ok? ==> Valid(UpdateGeofence(st, g, action).value.state)
  {
  }

  /** Every step keeps the pending/current invariant. */
  lemma StepPreservesValid(st: State, e: Event)
    requires Valid(st)
    ensures Valid(Step(st, e).state)
  {
    match e
    case Entered(regionId) => EnterPreservesValid(st, regionId);
    case Exited(regionId) => ExitPreservesValid(st, regionId);
    case Updated(g, action) => UpdatePreservesValid(st, g, action);
  }

  /** Delivering an event keeps the invariant, whether the filter drops it or
      a handler sees it. */
  lemma DeliverPreservesValid(en: Engine, e: Event)
    requires Valid(en.state)
    ensures Valid(Deliver(en, e).engine.state)
  {
    if !Dropped(en, e) {
      StepPreservesValid(en.state, e);
      ReplayPreservesValid(Pass(en, e).engine);
    }
  }

  /** Replayed events keep the invariant, each being an ordinary step. */
  lemma {:induction false} ReplayPreservesValid(en: Engine)
    requires Valid(en.state)
    ensures Valid(Replay(en).engine.state)
    decreases HeldCount(en)
  {
    if en.heldEnter.Some? && !Dropped(en, Entered(en.heldEnter.value)) {
      StepPreservesValid(en.state, Entered(en.heldEnter.value));
      ReplayPreservesValid(Pass(en, Entered(en.heldEnter.value)).engine);
    } else if en.heldExit.Some? && !Dropped(en, Exited(en.heldExit.value)) {
      StepPreservesValid(en.state, Exited(en.heldExit.value));
      ReplayPreservesValid(Pass(en, Exited(en.heldExit.value)).engine);
    }
  }

  /** The invariant holds after any run of events from any valid state, in
      particular from start-up. */
  lemma {:induction false} RunPreservesValid(en: Engine, events: seq<Event>)
    requires Valid(en.state)
    ensures Valid(Run(en, events).engine.state)
    decreases |events|
  {
    if |events| > 0 {
      DeliverPreservesValid(en, events[0]);
      RunPreservesValid(Deliver(en, events[0]).engine, events[1..]);
    }
  }

  lemma InitialIsValid(stored: seq<Geofence>)
    ensures Valid(Initial(stored))
  {
  }

  // ---------------------------------------------------------------------------
  // Further properties of the steps

  /** A repeated enter notification changes nothing more: the state after
      two identical enters is the state after one, and the second emits
      nothing. */
  lemma EnterIdempotent(st: State, regionId: string)
    ensures Enter(Enter(st, regionId).state, regionId).state == Enter(st, regionId).state
    ensures Enter(Enter(st, regionId).state, regionId).notices == []
  {
  }

  /** A repeated exit notification changes nothing more. */
  lemma ExitIdempotent(st: State, regionId: string)
    ensures Exit(Exit(st, regionId).state, regionId).state == Exit(st, regionId).state
    ensures Exit(Exit(st, regionId).state, regionId).notices == []
  {
  }

  /** A region event delivered twice back to back changes nothing more and
      emits nothing the second time: either the filter drops the repeat, or
      the current geofence changed in between and the handler, seeing it
      again, leaves its own result alone. */
  lemma RepeatIsHarmless(en: Engine, e: Event)
    requires !e.Updated?
    requires e.Entered? ==> en.heldExit.None?
    requires e.Exited? ==> en.heldEnter.None?
    ensures var once := Deliver(en, e);
      var twice := Deliver(once.engine, e);
      twice.engine.state == once.engine.state && twice.notices == []
  {
    if !Dropped(en, e) {
      if e.Entered? {
        EnterIdempotent(en.state, e.regionId);
      } else {
        ExitIdempotent(en.state, e.regionId);
      }
    }
  }

  /** After the only geofence with a given id is removed, events from its
      regions no longer resolve and change nothing. */
  lemma StaleEventAfterRemove(st: State, g: Geofence, k: Kind)
    requires PlainId(g.id)
    requires exists i :: 0 <= i < |st.stored| && st.stored[i].id == g.id
    requires forall i, j :: 0 <= i < j < |st.stored| ==> st.stored[i].id != g.id || st.stored[j].id != g.id
    ensures UpdateGeofence(st, g, Remove).Ok?
    ensures var after := UpdateGeofence(st, g, Remove).value.state;
      && Enter(after, ToRegion(g, k).identifier) == Unchanged(after)
      && Exit(after, ToRegion(g, k).identifier) == Unchanged(after)
  {
    var i0 :| 0 <= i0 < |st.stored| && st.stored[i0].id == g.id;
    assert st.stored[i0] in st.stored;
    var after := UpdateGeofence(st, g, Remove).value.state;
    var i :| && 0 <= i < |st.stored| && st.stored[i].id == g.id
             && after.stored == st.stored[..i] + st.stored[i + 1..];
    RemovedIdIsGone(st.stored, i, g.id);
    RegionIdRoundTrip(g, k);
    UnknownRegionChangesNothing(after, ToRegion(g, k).identifier);
  }

  /** Deleting the only entry with an id leaves no entry with it. */
  lemma RemovedIdIsGone(stored: seq<Geofence>, i: int, id: string)
    requires 0 <= i < |stored| && stored[i].id == id
    requires forall a, b :: 0 <= a < b < |stored| ==> stored[a].id != id || stored[b].id != id
    ensures forall x :: x in stored[..i] + stored[i + 1..] ==> x.id != id
  {
  }

  /** Events from a region whose id no stored geofence has change nothing. */
  lemma UnknownRegionChangesNothing(st: State, regionId: string)
    requires forall x :: x in st.stored ==> x.id != ParseId(regionId)
    ensures Enter(st, regionId) == Unchanged(st)
    ensures Exit(st, regionId) == Unchanged(st)
  {
  }

  /** Because add does not look for an existing id, a second geofence with
      an id already stored is shadowed: its regions resolve to the earlier
      entry. */
  lemma AddedDuplicateIsShadowed(st: State, earlier: Geofence, g: Geofence, k: Kind)
    requires PlainId(g.id) && earlier.id == g.id
    requires IsFirstWithId(st.stored, g.id, earlier)
    ensures var after := UpdateGeofence(st, g, Add).value.state;
      && Resolve(after.stored, ToRegion(g, k).identifier) == Ok(Selection(earlier, k))
  {
    var after := UpdateGeofence(st, g, Add).value.state;
    RegionIdRoundTrip(g, k);
    FirstWithIdExtends(st.stored, [g], g.id, earlier);
    assert earlier in after.stored;
    var r := Resolve(after.stored, ToRegion(g, k).identifier);
    FirstWithIdUnique(after.stored, g.id, r.value.geofence, earlier);
  }

  // ---------------------------------------------------------------------------
  // Scenarios

  /** Resolving a region of the only geofence with its id yields exactly that
      geofence and the region's kind. */
  lemma ResolveSoleGeofence(stored: seq<Geofence>, g: Geofence, k: Kind)
    requires PlainId(g.id) && IsFirstWithId(stored, g.id, g)
    ensures Resolve(stored, ToRegion(g, k).identifier) == Ok(Selection(g, k))
  {
    RegionIdRoundTrip(g, k);
    assert g in stored;
    var r := Resolve(stored, ToRegion(g, k).identifier);
    FirstWithIdUnique(stored, g.id, r.value.geofence, g);
  }

  /** Add one geofence, then walk in through the outer circle, into the inner
      one, and back out: the list is emitted once with one entry, monitoring
      starts for it, and the current geofence goes wifi, zone, wifi, none. */
  lemma AddEnterExitScenario(g: Geofence)
    requires PlainId(g.id)
    ensures var added := UpdateGeofence(Initial([]), g, Add).value;
      var wifi := ToRegion(g, Wifi).identifier;
      var zone := ToRegion(g, Zone).identifier;
      var e1 := Enter(added.state, wifi);
      var e2 := Enter(e1.state, zone);
      var x1 := Exit(e2.state, zone);
      var x2 := Exit(x1.state, wifi);
      && added.notices == [TotalGeofences([g])]
      && added.commands == [DrawAndStartMonitor(g)]
      && added.saved
      && e1.notices == [CurrentGeofence(Some(Selection(g, Wifi)))]
      && e2.notices == [CurrentGeofence(Some(Selection(g, Zone)))]
      && x1.notices == [CurrentGeofence(Some(Selection(g, Wifi)))]
      && x2.notices == [CurrentGeofence(None)]
      && x2.state == Initial([g])
  {
    var added := UpdateGeofence(Initial([]), g, Add).value;
    assert added.state == Initial([g]);
    assert Resolve([g], ToRegion(g, Wifi).identifier) == Ok(Selection(g, Wifi))
        && Resolve([g], ToRegion(g, Zone).identifier) == Ok(Selection(g, Zone)) by {
      assert IsFirstWithId([g], g.id, g) by { assert [g][0] == g; }
      ResolveSoleGeofence([g], g, Wifi);
      ResolveSoleGeofence([g], g, Zone);
    }
    WalkInAndOut([g], ToRegion(g, Wifi).identifier, ToRegion(g, Zone).identifier, Selection(g, Wifi), Selection(g, Zone));
  }

  /** Entering the outer region, then the inner one, then leaving the inner
      one and the outer one, from start-up. */
  lemma WalkInAndOut(stored: seq<Geofence>, rw: string, rz: string, w: Selection, z: Selection)
    requires Resolve(stored, rw) == Ok(w) && Resolve(stored, rz) == Ok(z)
    requires w.geofence.id == z.geofence.id && w.kind == Wifi && z.kind == Zone
    ensures var e1 := Enter(Initial(stored), rw);
      var e2 := Enter(e1.state, rz);
      var x1 := Exit(e2.state, rz);
      var x2 := Exit(x1.state, rw);
      && e1.notices == [CurrentGeofence(Some(w))]
      && e2.notices == [CurrentGeofence(Some(z))]
      && x1.notices == [CurrentGeofence(Some(w))]
      && x2.notices == [CurrentGeofence(None)]
      && x2.state == Initial(stored)
  {
    WalkIn(stored, rw, rz, w, z);
    WalkOut(stored, rw, rz, w, z);
  }

  /** `WalkInAndOut` through the repeat filter: no event of the walk repeats
      its chain's last pair, so each reaches its handler, nothing is held,
      and the engine announces and ends as the handlers do. */
  lemma WalkInAndOutDelivered(stored: seq<Geofence>, rw: string, rz: string, w: Selection, z: Selection)
    requires Resolve(stored, rw) == Ok(w) && Resolve(stored, rz) == Ok(z)
    requires w.geofence.id == z.geofence.id && w.kind == Wifi && z.kind == Zone
    ensures var d1 := Deliver(Start(stored), Entered(rw));
      var d2 := Deliver(d1.engine, Entered(rz));
      var d3 := Deliver(d2.engine, Exited(rz));
      var d4 := Deliver(d3.engine, Exited(rw));
      && d1.notices == [CurrentGeofence(Some(w))]
      && d2.notices == [CurrentGeofence(Some(z))]
      && d3.notices == [CurrentGeofence(Some(w))]
      && d4.notices == [CurrentGeofence(None)]
      && d4.engine.state == Initial(stored)
      && d4.engine.heldEnter.None? && d4.engine.heldExit.None?
  {
    var id := w.geofence.id;
    var e1 := Engine(State(stored, [w], Some(w)), Some(EventKey(rw, None)), None, None, None);
    var e2 := Engine(State(stored, [w, z], Some(z)), Some(EventKey(rz, Some(id))), None, None, None);
    var e3 := Engine(e1.state, e2.lastEnter, Some(EventKey(rz, Some(id))), None, None);
    WalkIn(stored, rw, rz, w, z);
    WalkOut(stored, rw, rz, w, z);
    DeliverEnter(Start(stored), rw, e1.state);
    DeliverEnter(e1, rz, e2.state);
    DeliverExit(e2, rz, e3.state);
    assert rw != rz;
    DeliverExit(e3, rw, Initial(stored));
  }

  /** `AddEnterExitScenario` through the engine: the add passes straight to
      `updateGeofence` and leaves the start-up engine of the one-entry list,
      and the walk in and out from there announces wifi, zone, wifi and
      nothing as current. */
  lemma AddThenWalkDelivered(g: Geofence)
    requires PlainId(g.id)
    ensures var added := Deliver(Start([]), Updated(g, Add));
      && added.engine == Start([g])
      && added.notices == [TotalGeofences([g])]
      && added.commands == [DrawAndStartMonitor(g)]
      && added.saved
    ensures var wifi := ToRegion(g, Wifi).identifier;
      var zone := ToRegion(g, Zone).identifier;
      var d1 := Deliver(Deliver(Start([]), Updated(g, Add)).engine, Entered(wifi));
      var d2 := Deliver(d1.engine, Entered(zone));
      var d3 := Deliver(d2.engine, Exited(zone));
      var d4 := Deliver(d3.engine, Exited(wifi));
      && d1.notices == [CurrentGeofence(Some(Selection(g, Wifi)))]
      && d2.notices == [CurrentGeofence(Some(Selection(g, Zone)))]
      && d3.notices == [CurrentGeofence(Some(Selection(g, Wifi)))]
      && d4.notices == [CurrentGeofence(None)]
      && d4.engine.state == Initial([g])
  {
    var o := UpdateGeofence(Initial([]), g, Add).value;
    assert o.state == Initial([g]);
    var first := Pass(Start([]), Updated(g, Add));
    assert first.engine == Start([g]);
    assert Replay(first.engine) == Trace(first.engine, [], [], false);
    assert IsFirstWithId([g], g.id, g) by { assert [g][0] == g; }
    ResolveSoleGeofence([g], g, Wifi);
    ResolveSoleGeofence([g], g, Zone);
    WalkInAndOutDelivered([g], ToRegion(g, Wifi).identifier, ToRegion(g, Zone).identifier, Selection(g, Wifi), Selection(g, Zone));
  }

  /** The two enters of `WalkInAndOut`. */
  lemma WalkIn(stored: seq<Geofence>, rw: string, rz: string, w: Selection, z: Selection)
    requires Resolve(stored, rw) == Ok(w) && Resolve(stored, rz) == Ok(z)
    requires w.geofence.id == z.geofence.id && w.kind == Wifi && z.kind == Zone
    ensures var e1 := Enter(Initial(stored), rw);
      && e1.state == State(stored, [w], Some(w))
      && e1.notices == [CurrentGeofence(Some(w))]
      && Enter(e1.state, rz).state == State(stored, [w, z], Some(z))
      && Enter(e1.state, rz).notices == [CurrentGeofence(Some(z))]
  {
  }

  /** The two exits of `WalkInAndOut`. */
  lemma WalkOut(stored: seq<Geofence>, rw: string, rz: string, w: Selection, z: Selection)
    requires Resolve(stored, rw) == Ok(w) && Resolve(stored, rz) == Ok(z)
    requires w.geofence.id == z.geofence.id && w.kind == Wifi && z.kind == Zone
    ensures var x1 := Exit(State(stored, [w, z], Some(z)), rz);
      && x1.state == State(stored, [w], Some(w))
      && x1.notices == [CurrentGeofence(Some(w))]
      && Exit(x1.state, rw).state == Initial(stored)
      && Exit(x1.state, rw).notices == [CurrentGeofence(None)]
  {
    assert RemoveMatching([w, z], z) == [w] by {
      RemoveMatchingCons(w, [z], z);
      RemoveMatchingCons(z, [], z);
      assert [w, z] == [w] + [z] && [z] == [z] + [];
    }
    assert SelectNext([w], w) == w;
    assert RemoveMatching([w], w) == [] by {
      RemoveMatchingCons(w, [], w);
      assert [w] == [w] + [];
    }
  }

  /** Walking into the inner circle, out of it and straight back in: the
      second entry is dropped, although the enter handler alone would make
      the zone region current again, because the enter chain's last pair is
      still the zone region with the same geofence current. The zone region
      id stays held, so leaving the outer circle afterwards, which leaves
      nothing current, brings the entry back: the zone region ends up
      pending and current. */
  lemma ReentryIsDropped(g: Geofence)
    requires PlainId(g.id)
    ensures var wifi := ToRegion(g, Wifi).identifier;
      var zone := ToRegion(g, Zone).identifier;
      var e3 := Deliver(Deliver(Deliver(Start([g]), Entered(wifi)).engine, Entered(zone)).engine, Exited(zone)).engine;
      var e4 := Deliver(e3, Entered(zone)).engine;
      var last := Deliver(e4, Exited(wifi));
      && e3.state == State([g], [Selection(g, Wifi)], Some(Selection(g, Wifi)))
      && Dropped(e3, Entered(zone))
      && e4.state == e3.state && e4.heldEnter == Some(zone)
      && Enter(e3.state, zone).state == State([g], [Selection(g, Wifi), Selection(g, Zone)], Some(Selection(g, Zone)))
      && last.engine.state == State([g], [Selection(g, Zone)], Some(Selection(g, Zone)))
      && last.notices == [CurrentGeofence(None), CurrentGeofence(Some(Selection(g, Zone)))]
  {
    assert IsFirstWithId([g], g.id, g) by { assert [g][0] == g; }
    ResolveSoleGeofence([g], g, Wifi);
    ResolveSoleGeofence([g], g, Zone);
    ReentryRun([g], ToRegion(g, Wifi).identifier, ToRegion(g, Zone).identifier, Selection(g, Wifi), Selection(g, Zone));
  }

  /** `ReentryIsDropped` for any stored list in which the two region ids
      resolve to the two regions of one geofence. */
  lemma ReentryRun(stored: seq<Geofence>, rw: string, rz: string, w: Selection, z: Selection)
    requires Resolve(stored, rw) == Ok(w) && Resolve(stored, rz) == Ok(z)
    requires w.geofence.id == z.geofence.id && w.kind == Wifi && z.kind == Zone
    ensures var e3 := Deliver(Deliver(Deliver(Start(stored), Entered(rw)).engine, Entered(rz)).engine, Exited(rz)).engine;
      var e4 := Deliver(e3, Entered(rz)).engine;
      var last := Deliver(e4, Exited(rw));
      && e3.state == State(stored, [w], Some(w))
      && Dropped(e3, Entered(rz))
      && e4.state == e3.state && e4.heldEnter == Some(rz)
      && Enter(e3.state, rz).state == State(stored, [w, z], Some(z))
      && last.engine.state == State(stored, [z], Some(z))
      && last.notices == [CurrentGeofence(None), CurrentGeofence(Some(z))]
  {
    var id := w.geofence.id;
    var e1 := Engine(State(stored, [w], Some(w)), Some(EventKey(rw, None)), None, None, None);
    var e2 := Engine(State(stored, [w, z], Some(z)), Some(EventKey(rz, Some(id))), None, None, None);
    var e3 := Engine(e1.state, e2.lastEnter, Some(EventKey(rz, Some(id))), None, None);
    var e4 := Engine(e1.state, e2.lastEnter, e3.lastExit, Some(rz), None);
    WalkIn(stored, rw, rz, w, z);
    WalkOut(stored, rw, rz, w, z);
    DeliverEnter(Start(stored), rw, e1.state);
    DeliverEnter(e1, rz, e2.state);
    DeliverExit(e2, rz, e3.state);
    assert Deliver(e3, Entered(rz)).engine == e4 by {
      assert Dropped(e3, Entered(rz));
    }
    HeldEntryReturns(e4, rw, rz, w, z);
  }

  /** Leaving the last pending region while the other region of its geofence
      is held by the enter chain: nothing is current for a moment, and the
      held entry, now paired with no current geofence, passes and makes its
      region pending and current. */
  lemma HeldEntryReturns(en: Engine, rw: string, rz: string, w: Selection, z: Selection)
    requires Resolve(en.state.stored, rw) == Ok(w) && Resolve(en.state.stored, rz) == Ok(z)
    requires w.geofence.id == z.geofence.id && w.kind == Wifi && z.kind == Zone
    requires en.state.pending == [w] && en.state.current == Some(w)
    requires en.lastEnter.Some? && en.lastEnter.value.currentId.Some?
    requires en.lastExit != Some(KeyOf(en.state, rw))
    requires en.heldEnter == Some(rz) && en.heldExit.None?
    ensures Deliver(en, Exited(rw)).engine.state == State(en.state.stored, [z], Some(z))
    ensures Deliver(en, Exited(rw)).notices == [CurrentGeofence(None), CurrentGeofence(Some(z))]
  {
    var stored := en.state.stored;
    assert RemoveMatching([w], w) == [] by {
      RemoveMatchingCons(w, [], w);
      assert [w] == [w] + [];
    }
    var first := Pass(en, Exited(rw));
    assert first.engine.state == Initial(stored) && first.notices == [CurrentGeofence(None)];
    assert !Dropped(first.engine, Entered(rz));
    var second := Pass(first.engine, Entered(rz));
    assert second.engine.state == State(stored, [z], Some(z)) && second.notices == [CurrentGeofence(Some(z))];
    assert Replay(second.engine) == Trace(second.engine, [], [], false);
  }

  /** The replacement for an exited current selection is chosen relative to
      the oldest pending entry, not to the exited geofence. Five events from
      start-up reach a state where `a`'s wifi region is current and its zone
      region is still pending. Leaving `a`'s wifi region straight away is
      dropped, because the exit chain let the same pair through on the fourth
      event. After an exit from another region, leaving it makes `b`
      current. */
  lemma ExitPromotionFollowsOldestPending(a: Geofence, b: Geofence)
    requires PlainId(a.id) && PlainId(b.id) && a.id != b.id
    ensures var aw := ToRegion(a, Wifi).identifier;
      var az := ToRegion(a, Zone).identifier;
      var bw := ToRegion(b, Wifi).identifier;
      var bz := ToRegion(b, Zone).identifier;
      var e3 := Deliver(Deliver(Deliver(Start([a, b]), Entered(aw)).engine, Entered(bw)).engine, Entered(az)).engine;
      var reached := Deliver(Deliver(e3, Exited(aw)).engine, Entered(aw)).engine;
      && reached.state == State([a, b], [Selection(b, Wifi), Selection(a, Zone), Selection(a, Wifi)], Some(Selection(a, Wifi)))
      && Dropped(reached, Exited(aw))
      && Deliver(Deliver(reached, Exited(bz)).engine, Exited(aw)).engine.state
         == State([a, b], [Selection(b, Wifi), Selection(a, Zone)], Some(Selection(b, Wifi)))
  {
    TwoGeofencesResolve(a, b);
    OldestPendingRun([a, b], ToRegion(a, Wifi).identifier, ToRegion(b, Wifi).identifier,
      ToRegion(a, Zone).identifier, ToRegion(b, Zone).identifier,
      Selection(a, Wifi), Selection(b, Wifi), Selection(a, Zone), Selection(b, Zone));
  }

  /** `ExitPromotionFollowsOldestPending` for any stored list in which the
      four region ids resolve to the two regions of two geofences. */
  lemma OldestPendingRun(stored: seq<Geofence>, aw: string, bw: string, az: string, bz: string,
                         AW: Selection, BW: Selection, AZ: Selection, BZ: Selection)
    requires Resolve(stored, aw) == Ok(AW) && Resolve(stored, bw) == Ok(BW)
    requires Resolve(stored, az) == Ok(AZ) && Resolve(stored, bz) == Ok(BZ)
    requires AW.geofence.id == AZ.geofence.id && BW.geofence.id == BZ.geofence.id && AW.geofence.id != BW.geofence.id
    requires AW.kind == Wifi && BW.kind == Wifi && AZ.kind == Zone && BZ.kind == Zone
    ensures var e3 := Deliver(Deliver(Deliver(Start(stored), Entered(aw)).engine, Entered(bw)).engine, Entered(az)).engine;
      var reached := Deliver(Deliver(e3, Exited(aw)).engine, Entered(aw)).engine;
      && reached.state == State(stored, [BW, AZ, AW], Some(AW))
      && Dropped(reached, Exited(aw))
      && Deliver(Deliver(reached, Exited(bz)).engine, Exited(aw)).engine.state == State(stored, [BW, AZ], Some(BW))
  {
    var id := AW.geofence.id;
    var reached := Engine(State(stored, [BW, AZ, AW], Some(AW)), Some(EventKey(aw, Some(id))), Some(EventKey(aw, Some(id))), None, None);
    OldestPendingReach(stored, aw, bw, az, AW, BW, AZ);
    NoKeyAmongThree(BW, AZ, AW, BZ);
    PassOtherExit(reached, bz, BZ);
    var other := Engine(reached.state, reached.lastEnter, Some(EventKey(bz, Some(id))), None, None);
    PassLastCurrentExit(other, aw, BW, AZ, AW);
  }

  /** The exit of a region that is not pending passes the filter when its pair
      is new, and changes nothing but the exit chain's last pair. */
  lemma PassOtherExit(en: Engine, regionId: string, s: Selection)
    requires Resolve(en.state.stored, regionId) == Ok(s) && en.state.current.Some?
    requires !HasKey(en.state.pending, s) && !SameSelection(en.state.current.value, s)
    requires en.lastExit != Some(KeyOf(en.state, regionId)) && en.heldEnter.None? && en.heldExit.None?
    ensures Deliver(en, Exited(regionId)).engine
      == Engine(en.state, en.lastEnter, Some(EventKey(regionId, Some(en.state.current.value.geofence.id))), None, None)
  {
    ExitOther(en.state, regionId, s);
    DeliverExit(en, regionId, en.state);
  }

  /** A region none of three pending selections denotes is not pending. */
  lemma NoKeyAmongThree(x: Selection, y: Selection, z: Selection, s: Selection)
    requires !SameSelection(x, s) && !SameSelection(y, s) && !SameSelection(z, s)
    ensures !HasKey([x, y, z], s)
  {
  }

  /** `LeaveLastCurrent` behind the filter. */
  lemma PassLastCurrentExit(en: Engine, r: string, x: Selection, y: Selection, z: Selection)
    requires en.state.pending == [x, y, z] && en.state.current == Some(z)
    requires Resolve(en.state.stored, r) == Ok(z)
    requires !SameSelection(x, z) && !SameSelection(y, z) && x.geofence.id != y.geofence.id
    requires en.lastExit != Some(KeyOf(en.state, r)) && en.heldEnter.None? && en.heldExit.None?
    ensures Deliver(en, Exited(r)).engine.state == State(en.state.stored, [x, y], Some(x))
  {
    assert !HasTwoWithId([x, y], x.geofence.id);
    LeaveLastCurrent(en.state.stored, r, x, y, z);
    DeliverExit(en, r, State(en.state.stored, [x, y], Some(x)));
  }

  /** The five events of `OldestPendingRun`, each let through by its chain's
      filter. */
  lemma OldestPendingReach(stored: seq<Geofence>, aw: string, bw: string, az: string,
                           AW: Selection, BW: Selection, AZ: Selection)
    requires Resolve(stored, aw) == Ok(AW) && Resolve(stored, bw) == Ok(BW) && Resolve(stored, az) == Ok(AZ)
    requires AW.geofence.id == AZ.geofence.id && AW.geofence.id != BW.geofence.id
    requires AW.kind == Wifi && BW.kind == Wifi && AZ.kind == Zone
    ensures var id := AW.geofence.id;
      var e3 := Deliver(Deliver(Deliver(Start(stored), Entered(aw)).engine, Entered(bw)).engine, Entered(az)).engine;
      Deliver(Deliver(e3, Exited(aw)).engine, Entered(aw)).engine
        == Engine(State(stored, [BW, AZ, AW], Some(AW)), Some(EventKey(aw, Some(id))), Some(EventKey(aw, Some(id))), None, None)
  {
    var id := AW.geofence.id;
    var e1 := Engine(State(stored, [AW], Some(AW)), Some(EventKey(aw, None)), None, None, None);
    var e2 := Engine(State(stored, [AW, BW], Some(AW)), Some(EventKey(bw, Some(id))), None, None, None);
    var e3 := Engine(State(stored, [AW, BW, AZ], Some(AZ)), Some(EventKey(az, Some(id))), None, None, None);
    var e4 := Engine(State(stored, [BW, AZ], Some(AZ)), e3.lastEnter, Some(EventKey(aw, Some(id))), None, None);
    var e5 := Engine(State(stored, [BW, AZ, AW], Some(AW)), Some(EventKey(aw, Some(id))), e4.lastExit, None, None);
    EnterTwoGeofences(stored, aw, bw, AW, BW);
    EnterOtherKindOfFirst(stored, az, AW, BW, AZ);
    LeaveFirstAndReturn(stored, aw, AW, BW, AZ);
    DeliverEnter(Start(stored), aw, e1.state);
    DeliverEnter(e1, bw, e2.state);
    DeliverEnter(e2, az, e3.state);
    DeliverExit(e3, aw, e4.state);
    DeliverEnter(e4, aw, e5.state);
  }

  /** With two regions pending and the older current, entering the other
      region of the current geofence appends it and makes it current. */
  lemma EnterOtherKindOfFirst(stored: seq<Geofence>, r: string, x: Selection, y: Selection, z: Selection)
    requires Resolve(stored, r) == Ok(z)
    requires z.geofence.id == x.geofence.id && z.kind != x.kind && !SameSelection(y, z)
    ensures Enter(State(stored, [x, y], Some(x)), r).state == State(stored, [x, y, z], Some(z))
  {
    assert !HasKey([x, y], z);
    EnterFresh(State(stored, [x, y], Some(x)), r, z);
    assert [x, y] + [z] == [x, y, z];
  }

  /** From start-up, entering a region of one geofence and then a region of
      another: the first stays current and both are pending, oldest first. */
  lemma EnterTwoGeofences(stored: seq<Geofence>, r1: string, r2: string, x: Selection, y: Selection)
    requires Resolve(stored, r1) == Ok(x) && Resolve(stored, r2) == Ok(y)
    requires x.geofence.id != y.geofence.id
    ensures var s1 := Enter(Initial(stored), r1).state;
      && s1 == State(stored, [x], Some(x))
      && Enter(s1, r2).state == State(stored, [x, y], Some(x))
  {
    var s1 := State(stored, [x], Some(x));
    assert Enter(Initial(stored), r1).state == s1 by {
      EnterFresh(Initial(stored), r1, x);
      assert [] + [x] == [x];
    }
    assert Enter(s1, r2).state == State(stored, [x, y], Some(x)) by {
      assert !HasKey([x], y);
      EnterFresh(s1, r2, y);
      assert [x] + [y] == [x, y];
    }
  }

  /** Leaving the oldest of three pending regions while the newest is
      current, then entering it again. */
  lemma LeaveFirstAndReturn(stored: seq<Geofence>, r: string, x: Selection, y: Selection, z: Selection)
    requires Resolve(stored, r) == Ok(x)
    requires !SameSelection(y, x) && !SameSelection(z, x) && Promotes(Some(z), x)
    ensures var s4 := Exit(State(stored, [x, y, z], Some(z)), r).state;
      && s4 == State(stored, [y, z], Some(z))
      && Enter(s4, r).state == State(stored, [y, z, x], Some(x))
  {
    var s4 := State(stored, [y, z], Some(z));
    assert Exit(State(stored, [x, y, z], Some(z)), r).state == s4 by {
      RemoveFirstOfThree(x, y, z);
      ExitOther(State(stored, [x, y, z], Some(z)), r, x);
    }
    assert Enter(s4, r).state == State(stored, [y, z, x], Some(x)) by {
      assert !HasKey([y, z], x);
      EnterFresh(s4, r, x);
      assert [y, z] + [x] == [y, z, x];
    }
  }

  /** Leaving the newest of three pending regions while it is current: the
      oldest becomes current when its geofence has no other pending entry. */
  lemma LeaveLastCurrent(stored: seq<Geofence>, r: string, x: Selection, y: Selection, z: Selection)
    requires Resolve(stored, r) == Ok(z)
    requires !SameSelection(x, z) && !SameSelection(y, z)
    requires !HasTwoWithId([x, y], x.geofence.id)
    ensures Exit(State(stored, [x, y, z], Some(z)), r).state == State(stored, [x, y], Some(x))
  {
    assert RemoveMatching([x, y, z], z) == [x, y] by {
      RemoveLastOfThree(x, y, z);
    }
    assert SelectNext([x, y], x) == x;
    ExitCurrent(State(stored, [x, y, z], Some(z)), r, z);
  }

  /** The regions of two geofences with distinct plain ids resolve back to
      their own geofence and kind. */
  lemma TwoGeofencesResolve(a: Geofence, b: Geofence)
    requires PlainId(a.id) && PlainId(b.id) && a.id != b.id
    ensures Resolve([a, b], ToRegion(a, Wifi).identifier) == Ok(Selection(a, Wifi))
    ensures Resolve([a, b], ToRegion(a, Zone).identifier) == Ok(Selection(a, Zone))
    ensures Resolve([a, b], ToRegion(b, Wifi).identifier) == Ok(Selection(b, Wifi))
    ensures Resolve([a, b], ToRegion(b, Zone).identifier) == Ok(Selection(b, Zone))
  {
    var stored := [a, b];
    assert IsFirstWithId(stored, a.id, a) by { assert stored[0] == a; }
    assert IsFirstWithId(stored, b.id, b) by { assert stored[1] == b; }
    ResolveSoleGeofence(stored, a, Wifi);
    ResolveSoleGeofence(stored, a, Zone);
    ResolveSoleGeofence(stored, b, Wifi);
    ResolveSoleGeofence(stored, b, Zone);
  }

  /** Removing the key of the first of three entries with distinct keys. */
  lemma RemoveFirstOfThree(x: Selection, y: Selection, z: Selection)
    requires !SameSelection(y, x) && !SameSelection(z, x)
    ensures RemoveMatching([x, y, z], x) == [y, z]
  {
    RemoveMatchingCons(x, [y, z], x);
    RemoveMatchingCons(y, [z], x);
    RemoveMatchingCons(z, [], x);
    assert [x, y, z] == [x] + [y, z] && [y, z] == [y] + [z] && [z] == [z] + [];
  }

  /** Removing the key of the last of three entries with distinct keys. */
  lemma RemoveLastOfThree(x: Selection, y: Selection, z: Selection)
    requires !SameSelection(x, z) && !SameSelection(y, z)
    ensures RemoveMatching([x, y, z], z) == [x, y]
  {
    RemoveMatchingCons(x, [y, z], z);
    RemoveMatchingCons(y, [z], z);
    RemoveMatchingCons(z, [], z);
    assert [x, y, z] == [x] + [y, z] && [y, z] == [y] + [z] && [z] == [z] + [];
  }

  /** Entering a region that is not pending appends it, and makes it current
      when the enter handler's flag says so. */
  lemma EnterFresh(st: State, regionId: string, s: Selection)
    requires Resolve(st.stored, regionId) == Ok(s) && !HasKey(st.pending, s)
    ensures Enter(st, regionId).state
      == State(st.stored, st.pending + [s], if Promotes(st.current, s) then Some(s) else st.current)
  {
  }

  /** Leaving a region that is not current only removes it from the pending
      list. */
  lemma ExitOther(st: State, regionId: string, s: Selection)
    requires Resolve(st.stored, regionId) == Ok(s)
    requires !(st.current.Some? && SameSelection(st.current.value, s))
    ensures Exit(st, regionId).state == State(st.stored, RemoveMatching(st.pending, s), st.current)
  {
  }

  /** Leaving the current region with others still pending makes the
      replacement chosen from the oldest one current. */
  lemma ExitCurrent(st: State, regionId: string, s: Selection)
    requires Resolve(st.stored, regionId) == Ok(s)
    requires st.current == Some(s) && |RemoveMatching(st.pending, s)| > 0
    ensures var rest := RemoveMatching(st.pending, s);
      Exit(st, regionId).state == State(st.stored, rest, Some(SelectNext(rest, rest[0])))
  {
  }

  /** An enter event the filter lets through reaches the handler, and its pair
      becomes the enter chain's last. */
  lemma DeliverEnter(en: Engine, regionId: string, next: State)
    requires en.lastEnter != Some(KeyOf(en.state, regionId)) && en.heldEnter.None? && en.heldExit.None?
    requires Enter(en.state, regionId).state == next
    ensures Deliver(en, Entered(regionId)).engine == Engine(next, Some(KeyOf(en.state, regionId)), en.lastExit, None, None)
    ensures Deliver(en, Entered(regionId)).notices == Enter(en.state, regionId).notices
  {
  }

  /** An exit event the filter lets through reaches the handler, and its pair
      becomes the exit chain's last. */
  lemma DeliverExit(en: Engine, regionId: string, next: State)
    requires en.lastExit != Some(KeyOf(en.state, regionId)) && en.heldEnter.None? && en.heldExit.None?
    requires Exit(en.state, regionId).state == next
    ensures Deliver(en, Exited(regionId)).engine == Engine(next, en.lastEnter, Some(KeyOf(en.state, regionId)), None, None)
    ensures Deliver(en, Exited(regionId)).notices == Exit(en.state, regionId).notices
  {
  }
}
