/** The shared-buffer server refines the Recorder, in which every session owns its
    recordings. */
module Isolation {
  import opened Util
  import opened Buffers
  import opened Replies
  import opened Sessions
  import opened Counters
  import opened Runs

  // ---- the simple form ----

  /** A session with private recordings: one Take per set, the last one growing while
      the session is ACTIVE. */
  datatype Recording = Recording(lines: seq<nat>, interval: nat, aggregate: bool, status: State, takes: seq<Take>)

  datatype Recorder = Recorder(
    legacy: bool,
    maxFrequency: nat,
    n: nat,
    recordings: map<nat, Recording>,
    nextId: nat)

  function EmptyTake(n: nat): Take {
    seq(n, _ => [])
  }

  /** Sample values of the selected lines at the end of a take. */
  function Extend(t: Take, lines: seq<nat>, values: seq<real>): (r: Take)
    requires |t| == |lines| && forall i :: 0 <= i < |lines| ==> lines[i] < |values|
    ensures |r| == |t|
  {
    seq(|t|, i requires 0 <= i < |t| => t[i] + [values[lines[i]]])
  }

  predicate RecordingOk(n: nat, r: Recording) {
    && IsSelection(r.lines, n) && r.interval >= 1 && IsTakes(r.takes, |r.lines|)
    && (r.status == ACTIVE ==> r.takes != [])
  }

  function Heard(r: Recording, values: seq<real>): Recording
    requires RecordingOk(|values|, r)
  {
    if r.status == ACTIVE then
      r.(takes := r.takes[|r.takes| - 1 := Extend(r.takes[|r.takes| - 1], r.lines, values)])
    else r
  }

  predicate RecordingsOk(n: nat, rs: map<nat, Recording>) {
    forall id :: id in rs ==> RecordingOk(n, rs[id])
  }

  function HeardByAll(rs: map<nat, Recording>, values: seq<real>): map<nat, Recording>
    requires RecordingsOk(|values|, rs)
  {
    map id | id in rs :: Heard(rs[id], values)
  }

  function RecordedReply(legacy: bool, r: Recording): Reply
    requires r.interval >= 1 && IsTakes(r.takes, |r.lines|)
  {
    if legacy then LegacyReply(r.takes, |r.lines|, r.interval, r.aggregate)
    else CppReply(r.takes, |r.lines|, r.interval, r.aggregate)
  }

  /** One request: the recording, whether the session goes on, and the answer. */
  function Perform(legacy: bool, op: Operation, r: Recording): (Recording, bool, Answer)
    requires r.interval >= 1 && IsTakes(r.takes, |r.lines|)
  {
    if op == FINALIZE && legacy then (r, false, SUCCESS)
    else if op == STOP then
      if r.status == ACTIVE then (r.(status := INACTIVE), true, SUCCESS) else (r, true, ERROR)
    else if r.status == ACTIVE then (r, true, ERROR)
    else
      match op
      case START => (r.(status := ACTIVE, takes := [EmptyTake(|r.lines|)]), true, SUCCESS)
      case CONTINUE => (r.(status := ACTIVE, takes := r.takes + [EmptyTake(|r.lines|)]), true, SUCCESS)
      case GET => (r, true, Data(RecordedReply(legacy, r)))
      case FINALIZE => (r, false, SUCCESS)
  }

  predicate RecorderOk(c: Recorder) {
    RecordingsOk(c.n, c.recordings) && forall id :: id in c.recordings ==> id <= c.nextId
  }

  function Record(c: Recorder, e: Event): (Recorder, Option<Answer>)
    requires RecorderOk(c) && EventOk(c.n, e)
  {
    match e
    case Create(frequency, aggregate, mask) =>
      var id := c.nextId + 1;
      if frequency > c.maxFrequency then (c.(nextId := id), Some(ERROR))
      else
        var r := Recording(SelectLines(c.legacy, mask, c.n), IntervalFor(c.maxFrequency, frequency).GetOr(1), aggregate, INACTIVE, []);
        (c.(nextId := id, recordings := c.recordings[id := r]), Some(SUCCESS))
    case Request(id, op) =>
      if id !in c.recordings then (c, None)
      else
        var (r, running, answer) := Perform(c.legacy, op, c.recordings[id]);
        (c.(recordings := if running then c.recordings[id := r] else c.recordings - {id}), Some(answer))
    case Disconnect(id) => (c.(recordings := c.recordings - {id}), None)
    case Sample(values) => (c.(recordings := HeardByAll(c.recordings, values)), None)
  }

  // ---- what the shared buffers mean ----

  ghost function RecordingOf(ls: seq<LineState>, s: Session): Recording
    requires SessionOk(ls, s)
  {
    Recording(s.lines, s.interval, s.aggregate, s.status, TakesOf(ls, s))
  }

  ghost function RecordingsOf(ls: seq<LineState>, ss: map<nat, Session>): map<nat, Recording>
    requires Shapes(ls, ss)
  {
    map id | id in ss :: RecordingOf(ls, ss[id])
  }

  ghost function RecorderOf(w: World): Recorder
    requires WorldOk(w)
  {
    Recorder(w.legacy, w.maxFrequency, |w.lines|, RecordingsOf(w.lines, w.sessions), w.nextId)
  }

  lemma RecorderOfOk(w: World)
    requires WorldOk(w)
    ensures RecorderOk(RecorderOf(w))
  {
  }

  // ---- one session under changes of the buffers ----

  predicate SameData(ls: seq<LineState>, ls': seq<LineState>, sel: seq<nat>) {
    |ls| == |ls'| && forall l: nat :: l < |ls| && l in sel ==> ls[l].data == ls'[l].data
  }

  lemma SameDataSameRecording(ls: seq<LineState>, ls': seq<LineState>, s: Session)
    requires SessionOk(ls, s) && SameData(ls, ls', s.lines)
    ensures SessionOk(ls', s) && RecordingOf(ls', s) == RecordingOf(ls, s)
  {
    GrowthKeepsShape(ls, ls', s);
    forall i | 0 <= i < |s.sets| ensures TakesOf(ls', s)[i] == TakesOf(ls, s)[i] {
      SameTake(ls, ls', s.lines, s.sets[i]);
    }
  }

  lemma SameTake(ls: seq<LineState>, ls': seq<LineState>, sel: seq<nat>, set_: MeasuredSet)
    requires IsSelection(sel, |ls|) && SetOk(ls, sel, set_) && SameData(ls, ls', sel)
    ensures SetOk(ls', sel, set_) && TakeOf(ls', sel, set_) == TakeOf(ls, sel, set_)
  {
    forall r | 0 <= r < |sel| ensures TakeOf(ls', sel, set_)[r] == TakeOf(ls, sel, set_)[r] {
      assert sel[r] in sel;
    }
  }

  /** A new set is empty. */
  lemma OpenedTake(ls: seq<LineState>, sel: seq<nat>)
    requires IsSelection(sel, |ls|)
    ensures SetOk(ls, sel, MeasuredSet(Sizes(ls, sel), None))
    ensures TakeOf(ls, sel, MeasuredSet(Sizes(ls, sel), None)) == EmptyTake(|sel|)
  {
    assert forall r :: 0 <= r < |sel| ==> sel[r] in sel;
  }

  lemma StartedRecording(ls: seq<LineState>, s: Session)
    requires SessionOk(ls, s) && s.status == INACTIVE
    ensures var s' := Started(s, Sizes(ls, s.lines));
            SessionOk(ls, s') && RecordingOf(ls, s') == RecordingOf(ls, s).(status := ACTIVE, takes := [EmptyTake(|s.lines|)])
  {
    StartKeepsShape(ls, s);
    OpenedTake(ls, s.lines);
  }

  lemma ContinuedRecording(ls: seq<LineState>, s: Session)
    requires SessionOk(ls, s) && s.status == INACTIVE
    ensures var s' := Continued(s, Sizes(ls, s.lines));
            SessionOk(ls, s') &&
            RecordingOf(ls, s') == RecordingOf(ls, s).(status := ACTIVE, takes := TakesOf(ls, s) + [EmptyTake(|s.lines|)])
  {
    ContinueKeepsShape(ls, s);
    OpenedTake(ls, s.lines);
    var s' := Continued(s, Sizes(ls, s.lines));
    forall i | 0 <= i < |s.sets| ensures TakesOf(ls, s')[i] == TakesOf(ls, s)[i] {
      assert s'.sets[i] == s.sets[i];
    }
    assert TakesOf(ls, s') == TakesOf(ls, s) + [EmptyTake(|s.lines|)];
  }

  lemma StoppedRecording(ls: seq<LineState>, s: Session)
    requires SessionOk(ls, s) && s.status == ACTIVE
    ensures var s' := Stopped(s, Sizes(ls, s.lines));
            SessionOk(ls, s') && RecordingOf(ls, s') == RecordingOf(ls, s).(status := INACTIVE)
  {
    StopKeepsShape(ls, s);
    var s' := Stopped(s, Sizes(ls, s.lines));
    var last := |s.sets| - 1;
    forall i | 0 <= i < |s.sets| ensures TakesOf(ls, s')[i] == TakesOf(ls, s)[i] {
      if i == last {
        ClosedTake(ls, s.lines, s.sets[i]);
      }
    }
  }

  /** Recording the end of an open set does not change what it delimits. */
  lemma ClosedTake(ls: seq<LineState>, sel: seq<nat>, set_: MeasuredSet)
    requires IsSelection(sel, |ls|) && SetOk(ls, sel, set_) && set_.second.None?
    ensures var closed := set_.(second := Some(Sizes(ls, sel)));
            SetOk(ls, sel, closed) && TakeOf(ls, sel, closed) == TakeOf(ls, sel, set_)
  {
    assert forall r :: 0 <= r < |sel| ==> sel[r] in sel;
  }

  /** A sample extends the open set of an ACTIVE session, whose lines are all active,
      and leaves every closed set alone. */
  lemma SampledRecording(ls: seq<LineState>, s: Session, values: seq<real>)
    requires SessionOk(ls, s) && |values| == |ls|
    requires s.status == ACTIVE ==> forall l: nat :: l < |ls| && l in s.lines ==> ls[l].active > 0
    ensures SessionOk(PushSample(ls, values), s)
    ensures RecordingOk(|ls|, RecordingOf(ls, s))
    ensures RecordingOf(PushSample(ls, values), s) == Heard(RecordingOf(ls, s), values)
  {
    var ls' := PushSample(ls, values);
    GrowthKeepsShape(ls, ls', s);
    forall i | 0 <= i < |s.sets| && s.sets[i].second.Some?
      ensures TakesOf(ls', s)[i] == TakesOf(ls, s)[i]
    {
      ClosedTakeKept(ls, s.lines, s.sets[i], values);
    }
    if s.status == ACTIVE {
      OpenTakeExtended(ls, s.lines, s.sets[|s.sets| - 1], values);
    }
    assert TakesOf(ls', s) == Heard(RecordingOf(ls, s), values).takes;
  }

  lemma ClosedTakeKept(ls: seq<LineState>, sel: seq<nat>, set_: MeasuredSet, values: seq<real>)
    requires IsSelection(sel, |ls|) && SetOk(ls, sel, set_) && set_.second.Some? && |values| == |ls|
    ensures SetOk(PushSample(ls, values), sel, set_)
    ensures TakeOf(PushSample(ls, values), sel, set_) == TakeOf(ls, sel, set_)
  {
    forall r | 0 <= r < |sel| ensures TakeOf(PushSample(ls, values), sel, set_)[r] == TakeOf(ls, sel, set_)[r] {
      assert sel[r] in sel;
    }
  }

  lemma OpenTakeExtended(ls: seq<LineState>, sel: seq<nat>, set_: MeasuredSet, values: seq<real>)
    requires IsSelection(sel, |ls|) && SetOk(ls, sel, set_) && set_.second.None? && |values| == |ls|
    requires forall l: nat :: l < |ls| && l in sel ==> ls[l].active > 0
    ensures SetOk(PushSample(ls, values), sel, set_)
    ensures TakeOf(PushSample(ls, values), sel, set_) == Extend(TakeOf(ls, sel, set_), sel, values)
  {
    forall r | 0 <= r < |sel|
      ensures TakeOf(PushSample(ls, values), sel, set_)[r] == Extend(TakeOf(ls, sel, set_), sel, values)[r]
    {
      assert sel[r] in sel;
    }
  }

  // ---- one step of the whole system ----

  /** All sessions but `id` are in shape over the new buffers and record the same. */
  ghost predicate OthersKept(w: World, ls: seq<LineState>, id: nat)
    requires WorldOk(w)
  {
    forall j :: j in w.sessions && j != id ==>
      SessionOk(ls, w.sessions[j]) && RecordingOf(ls, w.sessions[j]) == RecordingOf(w.lines, w.sessions[j])
  }

  /** Replacing one session, the others kept. */
  lemma ReplacedRecordings(w: World, ls: seq<LineState>, id: nat, s: Session)
    requires WorldOk(w) && OthersKept(w, ls, id) && SessionOk(ls, s)
    ensures Shapes(ls, w.sessions[id := s])
    ensures RecordingsOf(ls, w.sessions[id := s]) == RecordingsOf(w.lines, w.sessions)[id := RecordingOf(ls, s)]
  {
  }

  lemma RemovedRecordings(w: World, ls: seq<LineState>, id: nat)
    requires WorldOk(w) && OthersKept(w, ls, id)
    ensures Shapes(ls, w.sessions - {id})
    ensures RecordingsOf(ls, w.sessions - {id}) == RecordingsOf(w.lines, w.sessions) - {id}
  {
  }

  lemma DataKeptForAll(w: World, ls: seq<LineState>, id: nat)
    requires WorldOk(w) && |ls| == |w.lines|
    requires forall l :: 0 <= l < |ls| ==> ls[l].data == w.lines[l].data
    ensures OthersKept(w, ls, id)
    ensures id in w.sessions ==> SessionOk(ls, w.sessions[id]) && RecordingOf(ls, w.sessions[id]) == RecordingOf(w.lines, w.sessions[id])
  {
    forall j | j in w.sessions
      ensures SessionOk(ls, w.sessions[j]) && RecordingOf(ls, w.sessions[j]) == RecordingOf(w.lines, w.sessions[j])
    {
      SameDataSameRecording(w.lines, ls, w.sessions[j]);
    }
  }

  /** Releasing a counter's lines empties no buffer another counter selects. */
  lemma ReleaseKeepsOthers(w: World, ls: seq<LineState>, id: nat)
    requires WorldOk(w) && id in w.sessions && |ls| == |w.lines|
    requires forall l :: 0 <= l < |ls| ==> ls[l].data == w.lines[l].data && ls[l].enabled == w.lines[l].enabled
    ensures OthersKept(w, UpdateLines(ls, w.sessions[id].lines, Released), id)
  {
    var ls' := UpdateLines(ls, w.sessions[id].lines, Released);
    forall j | j in w.sessions && j != id
      ensures SessionOk(ls', w.sessions[j]) && RecordingOf(ls', w.sessions[j]) == RecordingOf(w.lines, w.sessions[j])
    {
      forall l: nat | l < |ls| && l in w.sessions[j].lines ensures ls'[l].data == w.lines[l].data {
        SharedLineHeldTwice(w, id, j, l);
        assert ls'[l] == if l in w.sessions[id].lines then Released(ls[l]) else ls[l];
      }
      SameDataSameRecording(w.lines, ls', w.sessions[j]);
    }
  }

  lemma SharedLineHeldTwice(w: World, id: nat, j: nat, l: nat)
    requires WorldOk(w) && id in w.sessions && j in w.sessions && j != id && l < |w.lines|
    requires l in w.sessions[j].lines
    ensures w.lines[l].enabled >= 1
    ensures l in w.sessions[id].lines ==> w.lines[l].enabled >= 2
  {
    assert CountsAt(w.lines[l], w.sessions, w.strays, l);
    var h := Holders(w.sessions, l);
    assert j in h;
    assert |h - {j}| == |h| - 1;
    if l in w.sessions[id].lines {
      assert id in h - {j};
      assert |h - {j} - {id}| == |h - {j}| - 1;
    }
  }

  /** No clamp ever fires: a registered counter's lines are enabled, and active while
      the counter is. */
  lemma CountersHoldTheirLines(w: World, id: nat, l: nat)
    requires WorldOk(w) && id in w.sessions && l in w.sessions[id].lines && l < |w.lines|
    ensures w.lines[l].enabled > 0
    ensures w.sessions[id].status == ACTIVE ==> w.lines[l].active > 0
  {
    assert CountsAt(w.lines[l], w.sessions, w.strays, l);
    assert id in Holders(w.sessions, l);
    if w.sessions[id].status == ACTIVE {
      assert id in ActiveHolders(w.sessions, l);
    }
  }

  /** The server's step and the Recorder's step agree: the invariant is kept, the
      shared buffers mean the recordings, and the client gets the same answer. */
  ghost predicate Agrees(w: World, e: Event)
    requires WorldOk(w) && EventOk(|w.lines|, e)
  {
    RecorderOfOk(w);
    var (w', answer) := Step(w, e);
    && WorldOk(w') && |w'.lines| == |w.lines| && w'.legacy == w.legacy
    && (RecorderOf(w'), answer) == Record(RecorderOf(w), e)
  }

  lemma EnabledData(ls: seq<LineState>, sel: seq<nat>)
    ensures forall l :: 0 <= l < |ls| ==> UpdateLines(ls, sel, Enabled)[l].data == ls[l].data
  {
    forall l | 0 <= l < |ls|
      ensures UpdateLines(ls, sel, Enabled)[l] == if l in sel then Enabled(ls[l]) else ls[l]
    {
    }
  }

  /** A new session enables its lines and records nothing yet. */
  lemma RegistrationKeeps(w: World, sel: seq<nat>, k: nat, aggregate: bool)
    requires WorldOk(w) && IsSelection(sel, |w.lines|) && k >= 1
    ensures var id, ls, s := w.nextId + 1, UpdateLines(w.lines, sel, Enabled), NewSession(sel, k, aggregate);
            && WorldOk(w.(nextId := id, lines := ls, sessions := w.sessions[id := s]))
            && RecordingsOf(ls, w.sessions[id := s]) ==
               RecordingsOf(w.lines, w.sessions)[id := Recording(sel, k, aggregate, INACTIVE, [])]
  {
    var id, ls, s := w.nextId + 1, UpdateLines(w.lines, sel, Enabled), NewSession(sel, k, aggregate);
    EnabledData(w.lines, sel);
    DataKeptForAll(w, ls, id);
    CountsRegistered(w.lines, w.sessions, w.strays, id, s);
    ReplacedRecordings(w, ls, id, s);
    assert RecordingOf(ls, s) == Recording(sel, k, aggregate, INACTIVE, []);
  }

  lemma AcceptedRequest(w: World, e: Event)
    requires w.maxFrequency > 0 && e.Create? && e.frequency <= w.maxFrequency
    ensures IsSelection(SelectLines(w.legacy, e.mask, |w.lines|), |w.lines|)
    ensures IntervalFor(w.maxFrequency, e.frequency).GetOr(1) >= 1
  {
    SelectionsExist(e.mask, |w.lines|);
    IntervalIsNearest(w.maxFrequency, e.frequency);
  }

  lemma CreateAgrees(w: World, e: Event)
    requires WorldOk(w) && e.Create?
    ensures Agrees(w, e)
  {
    if e.frequency <= w.maxFrequency {
      AcceptedRequest(w, e);
      var sel, k := SelectLines(w.legacy, e.mask, |w.lines|), IntervalFor(w.maxFrequency, e.frequency).GetOr(1);
      RegistrationKeeps(w, sel, k, e.aggregate);
      var id, ls := w.nextId + 1, UpdateLines(w.lines, sel, Enabled);
      var sessions := w.sessions[id := NewSession(sel, k, e.aggregate)];
      var w' := w.(nextId := id, lines := ls, sessions := sessions);
      assert Step(w, e) == (w', Some(SUCCESS));
      RecorderOfOk(w);
      var c := RecorderOf(w);
      var c' := c.(nextId := id, recordings := c.recordings[id := Recording(sel, k, e.aggregate, INACTIVE, [])]);
      assert Record(c, e) == (c', Some(SUCCESS));
      assert RecorderOf(w') == c';
    }
  }

  /** START, CONTINUE and STOP: one session changes over buffers with the same data. */
  lemma ReplacementAgrees(w: World, id: nat, op: Operation, ls: seq<LineState>, s: Session)
    requires WorldOk(w) && id in w.sessions && |ls| == |w.lines|
    requires forall l :: 0 <= l < |ls| ==> ls[l].data == w.lines[l].data
    requires SessionOk(ls, s) && Counts(ls, w.sessions[id := s], w.strays)
    requires EffectOf(w.legacy, op, w.lines, w.sessions[id]) == Effect(ls, s, true, SUCCESS)
    requires (RecordingOf(ls, s), true, SUCCESS) == Perform(w.legacy, op, RecordingOf(w.lines, w.sessions[id]))
    ensures Agrees(w, Request(id, op))
  {
    DataKeptForAll(w, ls, id);
    ReplacedRecordings(w, ls, id, s);
  }

  lemma ActivationData(ls: seq<LineState>, sel: seq<nat>)
    ensures forall l :: 0 <= l < |ls| ==>
      && UpdateLines(ls, sel, Activated)[l].data == ls[l].data
      && UpdateLines(ls, sel, Deactivated)[l].data == ls[l].data
      && UpdateLines(ls, sel, Deactivated)[l].enabled == ls[l].enabled
  {
    forall l | 0 <= l < |ls|
      ensures UpdateLines(ls, sel, Activated)[l] == if l in sel then Activated(ls[l]) else ls[l]
      ensures UpdateLines(ls, sel, Deactivated)[l] == if l in sel then Deactivated(ls[l]) else ls[l]
    {
    }
  }

  lemma StartAgrees(w: World, id: nat)
    requires WorldOk(w) && id in w.sessions && w.sessions[id].status == INACTIVE
    ensures Agrees(w, Request(id, START))
  {
    var s := w.sessions[id];
    var ls, s' := UpdateLines(w.lines, s.lines, Activated), Started(s, Sizes(w.lines, s.lines));
    ActivationData(w.lines, s.lines);
    ActivationKeepsData(w.lines, s.lines, ls);
    SameDataSameRecording(w.lines, ls, s);
    StartedRecording(ls, s);
    CountsOpened(w.lines, w.sessions, w.strays, id, s');
    ReplacementAgrees(w, id, START, ls, s');
  }

  lemma ContinueAgrees(w: World, id: nat)
    requires WorldOk(w) && id in w.sessions && w.sessions[id].status == INACTIVE
    ensures Agrees(w, Request(id, CONTINUE))
  {
    var s := w.sessions[id];
    var ls, s' := UpdateLines(w.lines, s.lines, Activated), Continued(s, Sizes(w.lines, s.lines));
    ActivationData(w.lines, s.lines);
    ActivationKeepsData(w.lines, s.lines, ls);
    SameDataSameRecording(w.lines, ls, s);
    ContinuedRecording(ls, s);
    CountsOpened(w.lines, w.sessions, w.strays, id, s');
    ReplacementAgrees(w, id, CONTINUE, ls, s');
  }

  lemma StopAgrees(w: World, id: nat)
    requires WorldOk(w) && id in w.sessions && w.sessions[id].status == ACTIVE
    ensures Agrees(w, Request(id, STOP))
  {
    var s := w.sessions[id];
    var ls, s' := UpdateLines(w.lines, s.lines, Deactivated), Stopped(s, Sizes(w.lines, s.lines));
    ActivationData(w.lines, s.lines);
    ActivationKeepsData(w.lines, s.lines, ls);
    SameDataSameRecording(w.lines, ls, s);
    StoppedRecording(ls, s);
    CountsClosed(w.lines, w.sessions, w.strays, id, s');
    ReplacementAgrees(w, id, STOP, ls, s');
  }

  /** Taking a counter off the device without touching its active counts first. */
  lemma RemovalKeeps(w: World, id: nat)
    requires WorldOk(w) && id in w.sessions && (w.legacy ==> w.sessions[id].status == INACTIVE)
    ensures var w' := Remove(w, id, w.lines, if w.sessions[id].status == ACTIVE then w.strays + [w.sessions[id].lines] else w.strays);
            WorldOk(w') && RecordingsOf(w'.lines, w'.sessions) == RecordingsOf(w.lines, w.sessions) - {id}
  {
    ReleaseKeepsOthers(w, w.lines, id);
    CountsRemoved(w.lines, w.sessions, w.strays, id);
    RemovedRecordings(w, UpdateLines(w.lines, w.sessions[id].lines, Released), id);
  }

  /** The legacy destroy of an ACTIVE counter: deactivate, then take off the device. */
  lemma DestroyKeeps(w: World, id: nat)
    requires WorldOk(w) && id in w.sessions && w.sessions[id].status == ACTIVE
    ensures var w' := Remove(w, id, UpdateLines(w.lines, w.sessions[id].lines, Deactivated), w.strays);
            WorldOk(w') && RecordingsOf(w'.lines, w'.sessions) == RecordingsOf(w.lines, w.sessions) - {id}
  {
    var s := w.sessions[id];
    var ls, quiet := UpdateLines(w.lines, s.lines, Deactivated), s.(status := INACTIVE);
    ActivationData(w.lines, s.lines);
    ReleaseKeepsOthers(w, ls, id);
    CountsClosed(w.lines, w.sessions, w.strays, id, quiet);
    CountsRemoved(ls, w.sessions[id := quiet], w.strays, id);
    assert w.sessions[id := quiet] - {id} == w.sessions - {id};
    RemovedRecordings(w, UpdateLines(ls, s.lines, Released), id);
  }

  lemma UnchangedRequest(w: World, id: nat, op: Operation)
    requires WorldOk(w) && id in w.sessions
    requires var f := EffectOf(w.legacy, op, w.lines, w.sessions[id]);
             f.lines == w.lines && f.session == w.sessions[id] && f.running
    requires var f := EffectOf(w.legacy, op, w.lines, w.sessions[id]);
             var r := RecordingOf(w.lines, w.sessions[id]);
             Perform(w.legacy, op, r) == (r, true, f.answer)
    ensures Agrees(w, Request(id, op))
  {
    assert w.sessions[id := w.sessions[id]] == w.sessions;
    var c := RecordingsOf(w.lines, w.sessions);
    assert c[id := c[id]] == c;
  }

  lemma RequestAgrees(w: World, id: nat, op: Operation)
    requires WorldOk(w) && id in w.sessions
    ensures Agrees(w, Request(id, op))
  {
    var active := w.sessions[id].status == ACTIVE;
    if op == FINALIZE && w.legacy && active {
      DestroyKeeps(w, id);
    } else if op == FINALIZE && !active {
      RemovalKeeps(w, id);
    } else if op == START && !active {
      StartAgrees(w, id);
    } else if op == CONTINUE && !active {
      ContinueAgrees(w, id);
    } else if op == STOP && active {
      StopAgrees(w, id);
    } else {
      UnchangedRequest(w, id, op);
    }
  }

  lemma DisconnectAgrees(w: World, id: nat)
    requires WorldOk(w) && id in w.sessions
    ensures Agrees(w, Disconnect(id))
  {
    if w.legacy && w.sessions[id].status == ACTIVE {
      DestroyKeeps(w, id);
    } else {
      RemovalKeeps(w, id);
    }
  }

  lemma SampledRecordings(w: World, values: seq<real>)
    requires WorldOk(w) && |values| == |w.lines|
    ensures Shapes(PushSample(w.lines, values), w.sessions)
    ensures RecordingsOk(|values|, RecordingsOf(w.lines, w.sessions))
    ensures RecordingsOf(PushSample(w.lines, values), w.sessions) == HeardByAll(RecordingsOf(w.lines, w.sessions), values)
  {
    var ls := PushSample(w.lines, values);
    forall id | id in w.sessions
      ensures SessionOk(ls, w.sessions[id])
      ensures RecordingOk(|w.lines|, RecordingOf(w.lines, w.sessions[id]))
      ensures RecordingOf(ls, w.sessions[id]) == Heard(RecordingOf(w.lines, w.sessions[id]), values)
    {
      forall l: nat | w.sessions[id].status == ACTIVE && l < |w.lines| && l in w.sessions[id].lines
        ensures w.lines[l].active > 0
      {
        CountersHoldTheirLines(w, id, l);
      }
      SampledRecording(w.lines, w.sessions[id], values);
    }
  }

  lemma SampleAgrees(w: World, values: seq<real>)
    requires WorldOk(w) && |values| == |w.lines|
    ensures Agrees(w, Sample(values))
  {
    SampledRecordings(w, values);
    CountsSampled(w.lines, w.sessions, w.strays, values);
  }

  /** One step of the shared-buffer server is one step of the Recorder. */
  lemma StepAgrees(w: World, e: Event)
    requires WorldOk(w) && EventOk(|w.lines|, e)
    ensures Agrees(w, e)
  {
    match e
    case Create(_, _, _) => CreateAgrees(w, e);
    case Request(id, op) =>
      if id in w.sessions {
        RequestAgrees(w, id, op);
      }
    case Disconnect(id) =>
      if id in w.sessions {
        DisconnectAgrees(w, id);
      } else {
        var c := RecordingsOf(w.lines, w.sessions);
        assert c - {id} == c;
      }
    case Sample(values) => SampleAgrees(w, values);
  }
}
