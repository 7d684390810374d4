/** Whole runs: one device, any number of counters, and the sampler. Every counter
    operation, every disconnect and every sample is one atomic step.

    The server shares one buffer per line between all counters. The Recorder below is
    the simple form it has to agree with: every session owns private recordings and
    nothing is shared, counted or cleared. */
module Runs {
  import opened Util
  import opened Lines
  import opened Buffers
  import opened Sessions
  import opened Counters

  // ---- the server ----

  /** `strays` lists the lines of counters whose client vanished while ACTIVE: the C++
      server takes such a counter off the device without deactivating its lines. */
  datatype World = World(
    legacy: bool,
    maxFrequency: nat,
    lines: seq<LineState>,
    sessions: map<nat, Session>,
    nextId: nat,
    strays: seq<seq<nat>>)

  datatype Event =
    | Create(frequency: nat, aggregate: bool, mask: Mask)
    | Request(id: nat, op: Operation)
    | Disconnect(id: nat)
    | Sample(values: seq<real>)

  function SelectLines(legacy: bool, mask: Mask, n: nat): seq<nat> {
    if legacy then LegacySelected(mask, n) else Selected(mask, n)
  }

  ghost function EffectOf(legacy: bool, op: Operation, ls: seq<LineState>, s: Session): Effect
    requires SessionOk(ls, s)
  {
    if legacy then LegacyEffect(op, ls, s) else CppEffect(op, ls, s)
  }

  function InitialWorld(legacy: bool, maxFrequency: nat, n: nat): World {
    World(legacy, maxFrequency, seq(n, _ => LineState(0, 0, [])), map[], 0, [])
  }

  /** Takes the counter off the device. */
  function Remove(w: World, id: nat, ls: seq<LineState>, strays: seq<seq<nat>>): World
    requires id in w.sessions
  {
    w.(lines := UpdateLines(ls, w.sessions[id].lines, Released), sessions := w.sessions - {id}, strays := strays)
  }

  ghost function Step(w: World, e: Event): (r: (World, Option<Answer>))
    requires WorldOk(w) && EventOk(|w.lines|, e)
  {
    match e
    case Create(frequency, aggregate, mask) =>
      var id := w.nextId + 1;
      if frequency > w.maxFrequency then (w.(nextId := id), Some(ERROR))
      else
        var sel := SelectLines(w.legacy, mask, |w.lines|);
        var s := NewSession(sel, IntervalFor(w.maxFrequency, frequency).GetOr(1), aggregate);
        (w.(nextId := id, lines := UpdateLines(w.lines, sel, Enabled), sessions := w.sessions[id := s]), Some(SUCCESS))
    case Request(id, op) =>
      if id !in w.sessions then (w, None)
      else
        var f := EffectOf(w.legacy, op, w.lines, w.sessions[id]);
        if f.running then (w.(lines := f.lines, sessions := w.sessions[id := f.session]), Some(f.answer))
        else (Remove(w, id, f.lines, w.strays), Some(f.answer))
    case Disconnect(id) =>
      if id !in w.sessions then (w, None)
      else if w.legacy then (Remove(w, id, LegacyEffect(FINALIZE, w.lines, w.sessions[id]).lines, w.strays), None)
      else (Remove(w, id, w.lines, if w.sessions[id].status == ACTIVE then w.strays + [w.sessions[id].lines] else w.strays), None)
    case Sample(values) => (w.(lines := PushSample(w.lines, values)), None)
  }

  /** The driver's sample vector has one value per line. */
  predicate EventOk(n: nat, e: Event) {
    e.Sample? ==> |e.values| == n
  }

  // ---- reference counts ----

  function Holders(ss: map<nat, Session>, l: nat): set<nat> {
    set id | id in ss && l in ss[id].lines
  }

  function ActiveHolders(ss: map<nat, Session>, l: nat): set<nat> {
    set id | id in ss && l in ss[id].lines && ss[id].status == ACTIVE
  }

  function StraysOn(strays: seq<seq<nat>>, l: nat): nat {
    if strays == [] then 0
    else StraysOn(strays[..|strays| - 1], l) + (if l in strays[|strays| - 1] then 1 else 0)
  }

  /** A line's enabled count is the number of registered counters selecting it, its
      active count the number of those ACTIVE plus the strays; a line nobody holds or
      left active has an empty buffer. */
  predicate CountsAt(line: LineState, ss: map<nat, Session>, strays: seq<seq<nat>>, l: nat) {
    && line.enabled == |Holders(ss, l)|
    && line.active == |ActiveHolders(ss, l)| + StraysOn(strays, l)
    && (line.enabled == 0 && StraysOn(strays, l) == 0 ==> line.data == [])
  }

  predicate Counts(ls: seq<LineState>, ss: map<nat, Session>, strays: seq<seq<nat>>) {
    forall l :: 0 <= l < |ls| ==> CountsAt(ls[l], ss, strays, l)
  }

  ghost predicate Shapes(ls: seq<LineState>, ss: map<nat, Session>) {
    forall id :: id in ss ==> SessionOk(ls, ss[id])
  }

  ghost predicate WorldOk(w: World) {
    && w.maxFrequency > 0
    && (forall id :: id in w.sessions ==> id <= w.nextId)
    && Shapes(w.lines, w.sessions)
    && Counts(w.lines, w.sessions, w.strays)
    && (w.legacy ==> w.strays == [])
  }

  // holders when one session comes, goes, or changes its status

  lemma HoldersReplaced(ss: map<nat, Session>, id: nat, s: Session, l: nat)
    requires id in ss && s.lines == ss[id].lines
    ensures Holders(ss[id := s], l) == Holders(ss, l)
    ensures s.status == ss[id].status || l !in s.lines ==> ActiveHolders(ss[id := s], l) == ActiveHolders(ss, l)
    ensures s.status == ACTIVE && l in s.lines ==> ActiveHolders(ss[id := s], l) == ActiveHolders(ss, l) + {id}
    ensures s.status == INACTIVE ==> ActiveHolders(ss[id := s], l) == ActiveHolders(ss, l) - {id}
  {
  }

  lemma HoldersAdded(ss: map<nat, Session>, id: nat, s: Session, l: nat)
    requires id !in ss && s.status == INACTIVE
    ensures Holders(ss[id := s], l) == if l in s.lines then Holders(ss, l) + {id} else Holders(ss, l)
    ensures id !in Holders(ss, l) && ActiveHolders(ss[id := s], l) == ActiveHolders(ss, l)
  {
  }

  lemma HoldersRemoved(ss: map<nat, Session>, id: nat, l: nat)
    requires id in ss
    ensures Holders(ss - {id}, l) == Holders(ss, l) - {id}
    ensures ActiveHolders(ss - {id}, l) == ActiveHolders(ss, l) - {id}
    ensures id in Holders(ss, l) <==> l in ss[id].lines
    ensures id in ActiveHolders(ss, l) <==> l in ss[id].lines && ss[id].status == ACTIVE
  {
  }

  lemma ActiveAreHolders(ss: map<nat, Session>, l: nat)
    ensures |ActiveHolders(ss, l)| <= |Holders(ss, l)|
  {
    var rest := Holders(ss, l) - ActiveHolders(ss, l);
    assert Holders(ss, l) == ActiveHolders(ss, l) + rest;
  }

  lemma StraysAdded(strays: seq<seq<nat>>, sel: seq<nat>, l: nat)
    ensures StraysOn(strays + [sel], l) == StraysOn(strays, l) + (if l in sel then 1 else 0)
  {
    assert (strays + [sel])[..|strays|] == strays;
  }

  // counts after each kind of change

  lemma CountsOpened(ls: seq<LineState>, ss: map<nat, Session>, strays: seq<seq<nat>>, id: nat, s: Session)
    requires Counts(ls, ss, strays) && id in ss
    requires s.lines == ss[id].lines && ss[id].status == INACTIVE && s.status == ACTIVE
    ensures Counts(UpdateLines(ls, s.lines, Activated), ss[id := s], strays)
  {
    var ls' := UpdateLines(ls, s.lines, Activated);
    forall l | 0 <= l < |ls| ensures CountsAt(ls'[l], ss[id := s], strays, l) {
      HoldersReplaced(ss, id, s, l);
      HoldersRemoved(ss, id, l);
      assert CountsAt(ls[l], ss, strays, l);
      assert ls'[l] == if l in s.lines then Activated(ls[l]) else ls[l];
    }
  }

  lemma CountsClosed(ls: seq<LineState>, ss: map<nat, Session>, strays: seq<seq<nat>>, id: nat, s: Session)
    requires Counts(ls, ss, strays) && id in ss
    requires s.lines == ss[id].lines && ss[id].status == ACTIVE && s.status == INACTIVE
    ensures Counts(UpdateLines(ls, s.lines, Deactivated), ss[id := s], strays)
  {
    var ls' := UpdateLines(ls, s.lines, Deactivated);
    forall l | 0 <= l < |ls| ensures CountsAt(ls'[l], ss[id := s], strays, l) {
      HoldersReplaced(ss, id, s, l);
      HoldersRemoved(ss, id, l);
      assert CountsAt(ls[l], ss, strays, l);
      assert ls'[l] == if l in s.lines then Deactivated(ls[l]) else ls[l];
    }
  }

  lemma CountsRegistered(ls: seq<LineState>, ss: map<nat, Session>, strays: seq<seq<nat>>, id: nat, s: Session)
    requires Counts(ls, ss, strays) && id !in ss && s.status == INACTIVE
    ensures Counts(UpdateLines(ls, s.lines, Enabled), ss[id := s], strays)
  {
    var ls' := UpdateLines(ls, s.lines, Enabled);
    forall l | 0 <= l < |ls| ensures CountsAt(ls'[l], ss[id := s], strays, l) {
      HoldersAdded(ss, id, s, l);
      assert CountsAt(ls[l], ss, strays, l);
      assert ls'[l] == if l in s.lines then Enabled(ls[l]) else ls[l];
    }
  }

  /** Taking a counter off the device; if it is ACTIVE its lines become strays. */
  lemma CountsRemoved(ls: seq<LineState>, ss: map<nat, Session>, strays: seq<seq<nat>>, id: nat)
    requires Counts(ls, ss, strays) && id in ss
    ensures var strays' := if ss[id].status == ACTIVE then strays + [ss[id].lines] else strays;
            Counts(UpdateLines(ls, ss[id].lines, Released), ss - {id}, strays')
  {
    var sel := ss[id].lines;
    var strays' := if ss[id].status == ACTIVE then strays + [sel] else strays;
    var ls' := UpdateLines(ls, sel, Released);
    forall l | 0 <= l < |ls| ensures CountsAt(ls'[l], ss - {id}, strays', l) {
      HoldersRemoved(ss, id, l);
      StraysAdded(strays, sel, l);
      assert CountsAt(ls[l], ss, strays, l);
      assert ls'[l] == if l in sel then Released(ls[l]) else ls[l];
    }
  }

  lemma CountsSampled(ls: seq<LineState>, ss: map<nat, Session>, strays: seq<seq<nat>>, values: seq<real>)
    requires Counts(ls, ss, strays) && |values| == |ls|
    ensures Counts(PushSample(ls, values), ss, strays)
  {
    var ls' := PushSample(ls, values);
    forall l | 0 <= l < |ls| ensures CountsAt(ls'[l], ss, strays, l) {
      ActiveAreHolders(ss, l);
      assert CountsAt(ls[l], ss, strays, l);
    }
  }
}
