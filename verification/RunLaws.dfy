/** What holds of every run of the server. */
module RunLaws {
  import opened Util
  import opened Lines
  import opened Buffers
  import opened Replies
  import opened Sessions
  import opened Counters
  import opened Runs
  import opened Isolation

  predicate EventsOk(n: nat, es: seq<Event>) {
    forall i :: 0 <= i < |es| ==> EventOk(n, es[i])
  }

  ghost predicate Reached(w: World, w': World) {
    WorldOk(w') && |w'.lines| == |w.lines| && w'.legacy == w.legacy
  }

  /** The world after one event. */
  ghost function After(w: World, e: Event): (w': World)
    requires WorldOk(w) && EventOk(|w.lines|, e)
    ensures Reached(w, w')
  {
    StepAgrees(w, e);
    Step(w, e).0
  }

  /** The answer to the event. */
  ghost function AnswerTo(w: World, e: Event): Option<Answer>
    requires WorldOk(w) && EventOk(|w.lines|, e)
  {
    Step(w, e).1
  }

  /** The world after the events, and the answers along the way. */
  ghost function Run(w: World, es: seq<Event>): (r: (World, seq<Option<Answer>>))
    requires WorldOk(w) && EventsOk(|w.lines|, es)
    ensures Reached(w, r.0) && |r.1| == |es|
    decreases |es|
  {
    if es == [] then (w, [])
    else
      StepAgrees(w, es[0]);
      var (w1, answer) := Step(w, es[0]);
      var (w2, answers) := Run(w1, es[1..]);
      (w2, [answer] + answers)
  }

  function RecordAll(c: Recorder, es: seq<Event>): (r: (Recorder, seq<Option<Answer>>))
    requires RecorderOk(c) && EventsOk(c.n, es)
    decreases |es|
  {
    if es == [] then (c, [])
    else
      RecordKeepsOk(c, es[0]);
      var (c1, answer) := Record(c, es[0]);
      var (c2, answers) := RecordAll(c1, es[1..]);
      (c2, [answer] + answers)
  }

  lemma RecordKeepsOk(c: Recorder, e: Event)
    requires RecorderOk(c) && EventOk(c.n, e)
    ensures var c' := Record(c, e).0; RecorderOk(c') && c'.n == c.n && c'.legacy == c.legacy
  {
    if e.Create? {
      SelectionsExist(e.mask, c.n);
      if c.maxFrequency > 0 && e.frequency <= c.maxFrequency {
        IntervalIsNearest(c.maxFrequency, e.frequency);
      }
    }
  }

  /** Isolation as refinement: in every interleaving of any number of counters,
      disconnects and samples, what each session's sets delimit in the shared buffers
      is its private recording, and every client reads the same answers as from a
      server that shares nothing. */
  lemma {:induction false} RunRefinesRecorder(w: World, es: seq<Event>)
    requires WorldOk(w) && EventsOk(|w.lines|, es)
    ensures RecorderOk(RecorderOf(w))
    ensures RecorderOf(Run(w, es).0) == RecordAll(RecorderOf(w), es).0
    ensures Run(w, es).1 == RecordAll(RecorderOf(w), es).1
    decreases |es|
  {
    RecorderOfOk(w);
    if es != [] {
      StepAgrees(w, es[0]);
      RunRefinesRecorder(Step(w, es[0]).0, es[1..]);
    }
  }

  lemma InitialWorldOk(legacy: bool, maxFrequency: nat, n: nat)
    requires maxFrequency > 0
    ensures WorldOk(InitialWorld(legacy, maxFrequency, n))
  {
    var w := InitialWorld(legacy, maxFrequency, n);
    forall l | 0 <= l < n ensures CountsAt(w.lines[l], w.sessions, w.strays, l) {
      assert Holders(w.sessions, l) == {} && ActiveHolders(w.sessions, l) == {};
    }
  }

  // ---- reference counts over whole runs ----

  /** The client of an ACTIVE counter that selects line l vanishes. */
  predicate Vanishes(w: World, e: Event, l: nat) {
    e.Disconnect? && e.id in w.sessions && w.sessions[e.id].status == ACTIVE && l in w.sessions[e.id].lines
  }

  /** How often that happens during a run. */
  ghost function Vanished(w: World, es: seq<Event>, l: nat): nat
    requires WorldOk(w) && EventsOk(|w.lines|, es)
    decreases |es|
  {
    if es == [] then 0
    else (if Vanishes(w, es[0], l) then 1 else 0) + Vanished(After(w, es[0]), es[1..], l)
  }

  lemma StepStrays(w: World, e: Event, l: nat)
    requires WorldOk(w) && EventOk(|w.lines|, e)
    ensures StraysOn(After(w, e).strays, l) == StraysOn(w.strays, l) + (if !w.legacy && Vanishes(w, e, l) then 1 else 0)
  {
    if e.Disconnect? && e.id in w.sessions {
      StraysAdded(w.strays, w.sessions[e.id].lines, l);
    }
  }

  /** The strays on a line are the vanished clients of the run. */
  lemma {:induction false} StraysAreVanished(w: World, es: seq<Event>, l: nat)
    requires WorldOk(w) && EventsOk(|w.lines|, es)
    ensures StraysOn(Run(w, es).0.strays, l) == StraysOn(w.strays, l) + (if w.legacy then 0 else Vanished(w, es, l))
    decreases |es|
  {
    if es != [] {
      StepStrays(w, es[0], l);
      StraysAreVanished(After(w, es[0]), es[1..], l);
    }
  }

  // what is left in the buffer of a line that nobody has selected any more

  ghost predicate Unheld(w: World, l: nat) {
    WorldOk(w) && l < |w.lines| && w.lines[l].enabled == 0
  }

  /** No counter selects the line, before or after any of the events. */
  ghost predicate NeverHeld(w: World, es: seq<Event>, l: nat)
    requires WorldOk(w) && EventsOk(|w.lines|, es)
    decreases |es|
  {
    Unheld(w, l) && (es != [] ==> NeverHeld(After(w, es[0]), es[1..], l))
  }

  /** The events since a counter last selected the line. */
  ghost function SinceHeld(w: World, es: seq<Event>, l: nat): seq<Event>
    requires WorldOk(w) && EventsOk(|w.lines|, es)
    decreases |es|
  {
    if es == [] || NeverHeld(w, es, l) then es else SinceHeld(After(w, es[0]), es[1..], l)
  }

  /** What the samples leave on the line. */
  function Leftover(line: LineState, es: seq<Event>, l: nat): seq<real> {
    if line.active > 0 then Produced(es, l) else []
  }

  lemma UnheldSessions(w: World, l: nat, id: nat)
    requires Unheld(w, l) && id in w.sessions
    ensures l !in w.sessions[id].lines
  {
    var holders := Holders(w.sessions, l);
    assert CountsAt(w.lines[l], w.sessions, w.strays, l);
    assert holders == {};
    assert id !in holders;
  }

  lemma LineUpdated(ls: seq<LineState>, sel: seq<nat>, f: LineState -> LineState, l: nat)
    requires l < |ls|
    ensures UpdateLines(ls, sel, f)[l] == if l in sel then f(ls[l]) else ls[l]
  {
  }

  /** A request touches only the lines of its counter, and leaves their enabled counts. */
  lemma RequestTouches(w: World, id: nat, op: Operation, l: nat)
    requires WorldOk(w) && id in w.sessions && l < |w.lines|
    ensures var ls := EffectOf(w.legacy, op, w.lines, w.sessions[id]).lines;
            && |ls| == |w.lines| && ls[l].enabled == w.lines[l].enabled
            && (l !in w.sessions[id].lines ==> ls[l] == w.lines[l])
  {
    LineUpdated(w.lines, w.sessions[id].lines, Activated, l);
    LineUpdated(w.lines, w.sessions[id].lines, Deactivated, l);
  }

  /** Taking a counter off the device releases its lines. */
  lemma RemoveTouches(w: World, id: nat, ls: seq<LineState>, strays: seq<seq<nat>>, l: nat)
    requires id in w.sessions && l < |ls|
    ensures Remove(w, id, ls, strays).lines[l] == if l in w.sessions[id].lines then Released(ls[l]) else ls[l]
  {
    LineUpdated(ls, w.sessions[id].lines, Released, l);
  }

  /** On a line that nobody selects only samples act. */
  lemma UnheldStep(w: World, e: Event, l: nat)
    requires Unheld(w, l) && EventOk(|w.lines|, e) && Unheld(After(w, e), l)
    ensures After(w, e).lines[l] == if e.Sample? then Pushed(w.lines[l], e.values[l]) else w.lines[l]
  {
    match e
    case Create(frequency, aggregate, mask) =>
      LineUpdated(w.lines, SelectLines(w.legacy, mask, |w.lines|), Enabled, l);
    case Request(id, op) =>
      if id in w.sessions {
        UnheldSessions(w, l, id);
        RequestTouches(w, id, op, l);
        RemoveTouches(w, id, EffectOf(w.legacy, op, w.lines, w.sessions[id]).lines, w.strays, l);
      }
    case Disconnect(id) =>
      if id in w.sessions {
        UnheldSessions(w, l, id);
        Disconnected(w, id, l);
      }
    case Sample(values) =>
  }

  /** A disconnect releases the lines of its counter, and deactivates no others. */
  lemma Disconnected(w: World, id: nat, l: nat)
    requires WorldOk(w) && id in w.sessions && l < |w.lines|
    ensures var line := After(w, Disconnect(id)).lines[l];
            if l in w.sessions[id].lines then line == Released(w.lines[l]) || line == Released(Deactivated(w.lines[l]))
            else line == w.lines[l]
  {
    var strays := if w.sessions[id].status == ACTIVE then w.strays + [w.sessions[id].lines] else w.strays;
    LineUpdated(w.lines, w.sessions[id].lines, Deactivated, l);
    var ls := if w.legacy then LegacyEffect(FINALIZE, w.lines, w.sessions[id]).lines else w.lines;
    RemoveTouches(w, id, ls, if w.legacy then w.strays else strays, l);
  }

  /** The last counter that lets go of a line empties it. */
  lemma FreedStep(w: World, e: Event, l: nat)
    requires WorldOk(w) && EventOk(|w.lines|, e) && l < |w.lines| && !Unheld(w, l) && Unheld(After(w, e), l)
    ensures After(w, e).lines[l].data == []
  {
    match e
    case Create(frequency, aggregate, mask) =>
      LineUpdated(w.lines, SelectLines(w.legacy, mask, |w.lines|), Enabled, l);
    case Request(id, op) =>
      if id in w.sessions {
        RequestTouches(w, id, op, l);
        RemoveTouches(w, id, EffectOf(w.legacy, op, w.lines, w.sessions[id]).lines, w.strays, l);
      }
    case Disconnect(id) =>
      if id in w.sessions {
        Disconnected(w, id, l);
      }
    case Sample(values) =>
  }

  lemma {:induction false} NeverHeldLeaves(w: World, es: seq<Event>, l: nat)
    requires WorldOk(w) && EventsOk(|w.lines|, es) && NeverHeld(w, es, l)
    ensures var line := Run(w, es).0.lines[l];
            line.data == w.lines[l].data + Leftover(w.lines[l], es, l) && line.active == w.lines[l].active
    decreases |es|
  {
    if es != [] {
      var w1 := After(w, es[0]);
      UnheldStep(w, es[0], l);
      NeverHeldLeaves(w1, es[1..], l);
      LeftoverStep(w.lines[l], es, l);
    }
  }

  lemma LeftoverStep(line: LineState, es: seq<Event>, l: nat)
    requires es != [] && (es[0].Sample? ==> l < |es[0].values|)
    ensures var next := if es[0].Sample? then Pushed(line, es[0].values[l]) else line;
            line.data + Leftover(line, es, l) == next.data + Leftover(next, es[1..], l)
  {
  }

  /** A line that nobody selects at the end has what was sampled since it was last selected. */
  lemma {:induction false} UnheldData(w: World, es: seq<Event>, l: nat)
    requires WorldOk(w) && EventsOk(|w.lines|, es) && l < |w.lines| && (NeverHeld(w, es, l) ==> w.lines[l].data == [])
    requires Unheld(Run(w, es).0, l)
    ensures Run(w, es).0.lines[l].data == Leftover(Run(w, es).0.lines[l], SinceHeld(w, es, l), l)
    decreases |es|
  {
    if NeverHeld(w, es, l) {
      NeverHeldLeaves(w, es, l);
    } else if es != [] {
      var w1 := After(w, es[0]);
      if NeverHeld(w1, es[1..], l) {
        FreedStep(w, es[0], l);
      }
      UnheldData(w1, es[1..], l);
    }
  }

  /** After every run from the start a line's enabled count is the number of registered
      counters selecting it. In the legacy server its active count is that of the ACTIVE
      ones; in the C++ server each client that vanished while its counter was ACTIVE has
      left one more, so that the count is right exactly if none did, and within the enabled
      count exactly if there are no more of them than INACTIVE counters. A line nobody has
      enabled is empty, unless a client has left it active: then it has all that was sampled
      since it was last enabled. */
  lemma ReferenceCounts(legacy: bool, maxFrequency: nat, n: nat, es: seq<Event>, l: nat)
    requires maxFrequency > 0 && EventsOk(n, es) && l < n
    ensures WorldOk(InitialWorld(legacy, maxFrequency, n))
    ensures var w0 := InitialWorld(legacy, maxFrequency, n);
            var w, vanished := Run(w0, es).0, Vanished(w0, es, l);
            var holders, active := |Holders(w.sessions, l)|, |ActiveHolders(w.sessions, l)|;
            && active <= holders && w.lines[l].enabled == holders
            && w.lines[l].active == active + (if legacy then 0 else vanished)
            && (w.lines[l].active == active <==> legacy || vanished == 0)
            && (w.lines[l].active <= w.lines[l].enabled <==> legacy || vanished <= holders - active)
            && (holders == 0 ==> w.lines[l].data == if legacy || vanished == 0 then [] else Produced(SinceHeld(w0, es, l), l))
  {
    InitialWorldOk(legacy, maxFrequency, n);
    var w0 := InitialWorld(legacy, maxFrequency, n);
    var w := Run(w0, es).0;
    StraysAreVanished(w0, es, l);
    assert CountsAt(w.lines[l], w.sessions, w.strays, l);
    ActiveAreHolders(w.sessions, l);
    if w.lines[l].enabled == 0 {
      UnheldData(w0, es, l);
    }
  }

  /** No client of an ACTIVE counter vanishes during the run. */
  ghost predicate NoneVanishes(w: World, es: seq<Event>)
    requires WorldOk(w) && EventsOk(|w.lines|, es)
    decreases |es|
  {
    es != [] ==>
      && !(es[0].Disconnect? && es[0].id in w.sessions && w.sessions[es[0].id].status == ACTIVE)
      && NoneVanishes(After(w, es[0]), es[1..])
  }

  lemma {:induction false} StraysStay(w: World, es: seq<Event>)
    requires WorldOk(w) && EventsOk(|w.lines|, es)
    ensures |Run(w, es).0.strays| >= |w.strays|
    decreases |es|
  {
    if es != [] {
      StraysStay(After(w, es[0]), es[1..]);
    }
  }

  /** A run leaves no stray exactly if no client of an ACTIVE counter vanishes, or the server
      is the legacy one: counters that end by FINALIZE, or INACTIVE, leave none. */
  lemma {:induction false} NoDisconnectNoStrays(w: World, es: seq<Event>)
    requires WorldOk(w) && EventsOk(|w.lines|, es)
    ensures Run(w, es).0.strays == w.strays <==> w.legacy || NoneVanishes(w, es)
    decreases |es|
  {
    if es != [] {
      var w1 := After(w, es[0]);
      NoDisconnectNoStrays(w1, es[1..]);
      StraysStay(w1, es[1..]);
    }
  }

  /** The shortest run that miscounts: a client creates a counter, starts it and vanishes. */
  lemma VanishingRun(maxFrequency: nat, n: nat, frequency: nat, aggregate: bool, mask: Mask, l: nat)
    requires 0 < maxFrequency && frequency <= maxFrequency && l < n && IsSet(mask, l)
    ensures WorldOk(InitialWorld(false, maxFrequency, n))
    ensures var es := [Create(frequency, aggregate, mask), Request(1, START), Disconnect(1)];
            && EventsOk(n, es)
            && var w := Run(InitialWorld(false, maxFrequency, n), es).0;
               w.lines[l].active == 1 && w.lines[l].enabled == 0 && w.sessions == map[]
  {
    InitialWorldOk(false, maxFrequency, n);
    var w0 := InitialWorld(false, maxFrequency, n);
    var create, start, vanish := Create(frequency, aggregate, mask), Request(1, START), Disconnect(1);
    OneByOne(w0, create, start, vanish);
    var w1 := After(w0, create);
    CreatedAlone(w0, create, w1, l);
    var w2 := After(w1, start);
    StartedAlone(w1, start, w2, l);
    var w3 := After(w2, vanish);
    GoneAlone(w2, vanish, w3, l);
  }

  /** Only counter 1 is registered; it selects line l, which has no strays. */
  ghost predicate Alone(w: World, status: State, l: nat) {
    && WorldOk(w) && !w.legacy && l < |w.lines| && StraysOn(w.strays, l) == 0
    && w.sessions.Keys == {1} && w.sessions[1].status == status && l in w.sessions[1].lines
  }

  lemma CreatedAlone(w: World, e: Event, w': World, l: nat)
    requires WorldOk(w) && !w.legacy && w.sessions == map[] && w.nextId == 0 && w.strays == []
    requires e.Create? && e.frequency <= w.maxFrequency && l < |w.lines| && IsSet(e.mask, l)
    requires w' == After(w, e)
    ensures Alone(w', INACTIVE, l)
  {
    SelectedIsExact(e.mask, |w.lines|);
    assert l in Selected(e.mask, |w.lines|);
  }

  lemma StartedAlone(w: World, e: Event, w': World, l: nat)
    requires Alone(w, INACTIVE, l) && e == Request(1, START) && w' == After(w, e)
    ensures Alone(w', ACTIVE, l)
  {
    assert w'.sessions.Keys == w.sessions.Keys;
  }

  lemma GoneAlone(w: World, e: Event, w': World, l: nat)
    requires Alone(w, ACTIVE, l) && e == Disconnect(1) && w' == After(w, e)
    ensures w'.lines[l].active == 1 && w'.lines[l].enabled == 0 && w'.sessions == map[]
  {
    StepStrays(w, e, l);
    assert w'.sessions.Keys == {};
    NobodyLeft(w', l);
  }

  lemma NobodyLeft(w: World, l: nat)
    requires WorldOk(w) && w.sessions == map[] && l < |w.lines|
    ensures w.lines[l].enabled == 0 && w.lines[l].active == StraysOn(w.strays, l)
  {
    assert CountsAt(w.lines[l], w.sessions, w.strays, l);
    assert Holders(w.sessions, l) == {} && ActiveHolders(w.sessions, l) == {};
  }

  lemma OneByOne(w: World, a: Event, b: Event, c: Event)
    requires WorldOk(w) && EventOk(|w.lines|, a) && EventOk(|w.lines|, b) && EventOk(|w.lines|, c)
    ensures EventsOk(|w.lines|, [a, b, c])
    ensures Run(w, [a, b, c]).0 == After(After(After(w, a), b), c)
  {
    assert [a, b, c][1..] == [b, c] && [b, c][1..] == [c] && [c][1..] == [];
    var w1 := After(w, a);
    var w2 := After(w1, b);
    assert Run(w2, [c]).0 == After(w2, c);
    assert Run(w1, [b, c]).0 == Run(w2, [c]).0;
  }

  /** The C++ server does miscount: an ACTIVE counter whose client vanishes leaves its
      line active with nobody registered. */
  lemma VanishedClientLeavesLineActive(w: World, id: nat, l: nat)
    requires WorldOk(w) && !w.legacy && id in w.sessions && w.sessions[id].status == ACTIVE
    requires l < |w.lines| && l in w.sessions[id].lines
    ensures var w' := Step(w, Disconnect(id)).0;
            w'.lines[l].active == |ActiveHolders(w'.sessions, l)| + StraysOn(w.strays, l) + 1
  {
    StepAgrees(w, Disconnect(id));
    var w' := Step(w, Disconnect(id)).0;
    assert CountsAt(w'.lines[l], w'.sessions, w'.strays, l);
    StraysAdded(w.strays, w.sessions[id].lines, l);
  }

  // ---- one set, from the events themselves ----

  /** The values the sampler produced for line l, in order. */
  function Produced(es: seq<Event>, l: nat): seq<real> {
    if es == [] then []
    else (if es[0].Sample? && l < |es[0].values| then [es[0].values[l]] else []) + Produced(es[1..], l)
  }

  /** The events that end an ACTIVE session; everything else leaves it ACTIVE. */
  predicate Ends(legacy: bool, e: Event, id: nat) {
    || e == Request(id, STOP)
    || e == Disconnect(id)
    || (legacy && e == Request(id, FINALIZE))
  }

  function Grown(t: Take, lines: seq<nat>, es: seq<Event>): Take
    requires |t| == |lines|
  {
    seq(|t|, i requires 0 <= i < |t| => t[i] + Produced(es, lines[i]))
  }

  /** A recording with its last take grown by what the events produce. */
  function Longer(r: Recording, es: seq<Event>): Recording
    requires IsTakes(r.takes, |r.lines|) && r.takes != []
  {
    r.(takes := r.takes[|r.takes| - 1 := Grown(r.takes[|r.takes| - 1], r.lines, es)])
  }

  lemma RecordedStep(c: Recorder, e: Event, id: nat)
    requires RecorderOk(c) && EventOk(c.n, e) && id in c.recordings && c.recordings[id].status == ACTIVE
    requires !Ends(c.legacy, e, id)
    ensures var c' := Record(c, e).0;
            id in c'.recordings &&
            c'.recordings[id] == if e.Sample? then Heard(c.recordings[id], e.values) else c.recordings[id]
  {
  }

  lemma {:induction false} RecordedWhileActive(c: Recorder, es: seq<Event>, id: nat)
    requires RecorderOk(c) && EventsOk(c.n, es) && id in c.recordings && c.recordings[id].status == ACTIVE
    requires forall i :: 0 <= i < |es| ==> !Ends(c.legacy, es[i], id)
    ensures var r, c' := c.recordings[id], RecordAll(c, es).0;
            && id in c'.recordings
            && c'.recordings[id] == Longer(r, es)
    decreases |es|
  {
    var r := c.recordings[id];
    var last := r.takes[|r.takes| - 1];
    if es == [] {
      forall i | 0 <= i < |last| ensures Grown(last, r.lines, es)[i] == last[i] {
        assert last[i] + [] == last[i];
      }
      assert Grown(last, r.lines, es) == last;
      assert r.takes[|r.takes| - 1 := last] == r.takes;
    } else {
      var e := es[0];
      RecordKeepsOk(c, e);
      RecordedStep(c, e, id);
      var c1 := Record(c, e).0;
      var r1 := c1.recordings[id];
      RecordedWhileActive(c1, es[1..], id);
      GrownStep(last, r.lines, es, r1.takes[|r1.takes| - 1]);
    }
  }

  lemma GrownStep(t: Take, lines: seq<nat>, es: seq<Event>, t1: Take)
    requires |t| == |lines| && es != []
    requires es[0].Sample? ==> forall i :: 0 <= i < |lines| ==> lines[i] < |es[0].values|
    requires t1 == if es[0].Sample? then Extend(t, lines, es[0].values) else t
    ensures Grown(t1, lines, es[1..]) == Grown(t, lines, es)
  {
    forall i | 0 <= i < |t| ensures Grown(t1, lines, es[1..])[i] == Grown(t, lines, es)[i] {
      var rest := Produced(es[1..], lines[i]);
      if es[0].Sample? {
        var v := es[0].values[lines[i]];
        assert t[i] + ([v] + rest) == t[i] + [v] + rest;
      } else {
        assert [] + rest == rest;
      }
    }
  }

  lemma SetBegins(w: World, id: nat, op: Operation)
    requires WorldOk(w) && id in w.sessions && w.sessions[id].status == INACTIVE
    requires op == START || op == CONTINUE
    ensures var w' := After(w, Request(id, op));
            id in w'.sessions && RecordingOf(w'.lines, w'.sessions[id]) == Opened(RecordingOf(w.lines, w.sessions[id]), op)
  {
    var c, w' := RecorderOf(w), After(w, Request(id, op));
    RequestRecorded(w, id, op, c, w');
    assert c.recordings[id] == RecordingOf(w.lines, w.sessions[id]);
    assert Perform(w.legacy, op, c.recordings[id]).0 == Opened(c.recordings[id], op);
  }

  /** The request as the recorder sees it. */
  lemma RequestRecorded(w: World, id: nat, op: Operation, c: Recorder, w': World)
    requires WorldOk(w) && id in w.sessions && w.sessions[id].status == INACTIVE && (op == START || op == CONTINUE)
    requires c == RecorderOf(w) && w' == After(w, Request(id, op))
    ensures id in w'.sessions && RecorderOk(c) && c.legacy == w.legacy && id in c.recordings
    ensures RecordingOf(w'.lines, w'.sessions[id]) == Perform(w.legacy, op, c.recordings[id]).0
  {
    StepAgrees(w, Request(id, op));
    RecorderOfOk(w);
    assert c.recordings[id] == RecordingOf(w.lines, w.sessions[id]);
    assert RecorderOf(w').recordings[id] == Perform(w.legacy, op, c.recordings[id]).0;
    assert id in w'.sessions;
    assert RecorderOf(w').recordings[id] == RecordingOf(w'.lines, w'.sessions[id]);
  }

  /** A recording with a new empty take: START drops the earlier ones. */
  function Opened(r: Recording, op: Operation): Recording {
    r.(status := ACTIVE, takes := Kept(r, op) + [EmptyTake(|r.lines|)])
  }

  function Kept(r: Recording, op: Operation): seq<Take> {
    if op == START then [] else r.takes
  }

  lemma SetEnds(w: World, id: nat)
    requires WorldOk(w) && id in w.sessions && w.sessions[id].status == ACTIVE
    ensures AnswerTo(w, Request(id, STOP)) == Some(SUCCESS)
    ensures var w' := After(w, Request(id, STOP));
            id in w'.sessions &&
            RecordingOf(w'.lines, w'.sessions[id]) == RecordingOf(w.lines, w.sessions[id]).(status := INACTIVE)
  {
    StepAgrees(w, Request(id, STOP));
    RecorderOfOk(w);
    var w' := Step(w, Request(id, STOP)).0;
    assert RecorderOf(w').recordings[id] == RecorderOf(w).recordings[id].(status := INACTIVE);
    assert RecorderOf(w).recordings[id] == RecordingOf(w.lines, w.sessions[id]);
    assert RecorderOf(w').recordings[id] == RecordingOf(w'.lines, w'.sessions[id]);
  }

  lemma SetGrows(w: World, id: nat, mid: seq<Event>)
    requires WorldOk(w) && EventsOk(|w.lines|, mid) && id in w.sessions && w.sessions[id].status == ACTIVE
    requires forall i :: 0 <= i < |mid| ==> !Ends(w.legacy, mid[i], id)
    ensures RecordingOk(|w.lines|, RecordingOf(w.lines, w.sessions[id]))
    ensures var w' := Run(w, mid).0;
            id in w'.sessions && RecordingOf(w'.lines, w'.sessions[id]) == Longer(RecordingOf(w.lines, w.sessions[id]), mid)
  {
    RunRefinesRecorder(w, mid);
    var c := RecorderOf(w);
    assert c.recordings[id] == RecordingOf(w.lines, w.sessions[id]);
    RecordedWhileActive(c, mid, id);
    var w' := Run(w, mid).0;
    assert RecorderOf(w').recordings[id] == Longer(c.recordings[id], mid);
    assert id in w'.sessions;
    assert RecorderOf(w').recordings[id] == RecordingOf(w'.lines, w'.sessions[id]);
  }

  /** What the device produced during the events, per selected line. */
  function ProducedTake(es: seq<Event>, lines: seq<nat>): Take {
    seq(|lines|, i requires 0 <= i < |lines| => Produced(es, lines[i]))
  }

  /** The recording after one more set that lasted for the given events. */
  function WithSet(r: Recording, op: Operation, mid: seq<Event>): Recording {
    r.(takes := Kept(r, op) + [ProducedTake(mid, r.lines)])
  }

  lemma NewTakeGrown(r: Recording, op: Operation, mid: seq<Event>)
    requires IsTakes(r.takes, |r.lines|) && r.status == INACTIVE
    ensures IsTakes(Opened(r, op).takes, |r.lines|)
    ensures Longer(Opened(r, op), mid).(status := INACTIVE) == WithSet(r, op, mid)
  {
    var n := |r.lines|;
    forall i | 0 <= i < n ensures Grown(EmptyTake(n), r.lines, mid)[i] == Produced(mid, r.lines[i]) {
      assert [] + Produced(mid, r.lines[i]) == Produced(mid, r.lines[i]);
    }
    assert Grown(EmptyTake(n), r.lines, mid) == ProducedTake(mid, r.lines);
  }

  /** The world after START or CONTINUE, the events of `mid`, and STOP. */
  ghost function AfterSet(w: World, id: nat, op: Operation, mid: seq<Event>): (w': World)
    requires WorldOk(w) && EventsOk(|w.lines|, mid)
    ensures Reached(w, w')
  {
    After(Run(After(w, Request(id, op)), mid).0, Request(id, STOP))
  }

  /** START or CONTINUE, then anything the other clients and the sampler do, then STOP:
      the new set delimits on every selected line exactly the samples the device
      produced in between, whatever happened to the shared buffers, and the sets kept
      from before are unchanged. */
  lemma SetDelimitsProducedSamples(w: World, id: nat, op: Operation, mid: seq<Event>)
    requires WorldOk(w) && EventsOk(|w.lines|, mid) && id in w.sessions && w.sessions[id].status == INACTIVE
    requires op == START || op == CONTINUE
    requires forall i :: 0 <= i < |mid| ==> !Ends(w.legacy, mid[i], id)
    ensures var w' := AfterSet(w, id, op, mid);
            id in w'.sessions &&
            RecordingOf(w'.lines, w'.sessions[id]) == WithSet(RecordingOf(w.lines, w.sessions[id]), op, mid)
  {
    var r := RecordingOf(w.lines, w.sessions[id]);
    SetBegins(w, id, op);
    var w0 := After(w, Request(id, op));
    assert RecordingOf(w0.lines, w0.sessions[id]).status == w0.sessions[id].status;
    SetGrows(w0, id, mid);
    NewTakeGrown(r, op, mid);
    var w1 := Run(w0, mid).0;
    assert RecordingOf(w1.lines, w1.sessions[id]).status == w1.sessions[id].status;
    SetEnds(w1, id);
  }

  lemma GetAnswersFromRecording(w: World, id: nat)
    requires WorldOk(w) && id in w.sessions && w.sessions[id].status == INACTIVE
    ensures AnswerTo(w, Request(id, GET)) == Some(Data(RecordedReply(w.legacy, RecordingOf(w.lines, w.sessions[id]))))
  {
  }

  /** The GET that follows: its reply is built from the kept sets and exactly what the
      device produced between the start and the stop. */
  lemma ReplyCarriesProducedSamples(w: World, id: nat, op: Operation, mid: seq<Event>)
    requires WorldOk(w) && EventsOk(|w.lines|, mid) && id in w.sessions && w.sessions[id].status == INACTIVE
    requires op == START || op == CONTINUE
    requires forall i :: 0 <= i < |mid| ==> !Ends(w.legacy, mid[i], id)
    ensures AnswerTo(AfterSet(w, id, op, mid), Request(id, GET)) ==
            Some(Data(RecordedReply(w.legacy, WithSet(RecordingOf(w.lines, w.sessions[id]), op, mid))))
  {
    SetDelimitsProducedSamples(w, id, op, mid);
    var w' := AfterSet(w, id, op, mid);
    assert RecordingOf(w'.lines, w'.sessions[id]).status == w'.sessions[id].status;
    GetAnswersFromRecording(w', id);
  }

  /** Closed sets keep their samples: whatever happens later, as long as the counter is
      not started afresh or taken off the device, its recorded takes stay a prefix. */
  lemma {:induction false} ClosedSetsKept(w: World, es: seq<Event>, id: nat, k: nat)
    requires WorldOk(w) && EventsOk(|w.lines|, es) && id in w.sessions
    requires k <= |w.sessions[id].sets| && (w.sessions[id].status == ACTIVE ==> k < |w.sessions[id].sets|)
    requires forall i :: 0 <= i < |es| ==>
      es[i] != Request(id, START) && es[i] != Request(id, FINALIZE) && es[i] != Disconnect(id)
    ensures var w' := Run(w, es).0;
            && id in w'.sessions && k <= |w'.sessions[id].sets|
            && TakesOf(w'.lines, w'.sessions[id])[..k] == TakesOf(w.lines, w.sessions[id])[..k]
    decreases |es|
  {
    if es != [] {
      var w1 := Step(w, es[0]).0;
      StepKeepsTakes(w, es[0], id, k);
      ClosedSetsKept(w1, es[1..], id, k);
    }
  }

  lemma RecordKeepsTakes(c: Recorder, e: Event, id: nat, k: nat)
    requires RecorderOk(c) && EventOk(c.n, e) && id in c.recordings
    requires var r := c.recordings[id]; k <= |r.takes| && (r.status == ACTIVE ==> k < |r.takes|)
    requires e != Request(id, START) && e != Request(id, FINALIZE) && e != Disconnect(id)
    ensures var c' := Record(c, e).0;
            && id in c'.recordings
            && var (r, r') := (c.recordings[id], c'.recordings[id]);
            k <= |r'.takes| && (r'.status == ACTIVE ==> k < |r'.takes|) && r'.takes[..k] == r.takes[..k]
  {
  }

  lemma StepKeepsTakes(w: World, e: Event, id: nat, k: nat)
    requires WorldOk(w) && EventOk(|w.lines|, e) && id in w.sessions
    requires k <= |w.sessions[id].sets| && (w.sessions[id].status == ACTIVE ==> k < |w.sessions[id].sets|)
    requires e != Request(id, START) && e != Request(id, FINALIZE) && e != Disconnect(id)
    ensures Agrees(w, e)
    ensures var w' := Step(w, e).0;
            && id in w'.sessions && k <= |w'.sessions[id].sets|
            && (w'.sessions[id].status == ACTIVE ==> k < |w'.sessions[id].sets|)
            && TakesOf(w'.lines, w'.sessions[id])[..k] == TakesOf(w.lines, w.sessions[id])[..k]
  {
    StepAgrees(w, e);
    RecorderOfOk(w);
    var w' := Step(w, e).0;
    var c := RecorderOf(w);
    assert c.recordings[id] == RecordingOf(w.lines, w.sessions[id]);
    RecordKeepsTakes(c, e, id, k);
    var r' := RecorderOf(w').recordings[id];
    assert id in w'.sessions;
    assert r' == RecordingOf(w'.lines, w'.sessions[id]);
    assert r'.takes == TakesOf(w'.lines, w'.sessions[id]);
  }
}
