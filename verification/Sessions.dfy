/** One client's measurement session, as values: its state machine and the sets it
    records in the shared buffers. */
module Sessions {
  import opened Util
  import opened Buffers
  import opened Replies

  datatype State = INACTIVE | ACTIVE

  datatype Operation = START | CONTINUE | STOP | GET | FINALIZE

  datatype Answer = SUCCESS | ERROR | Data(reply: Reply)

  /** Buffer offsets per line when the set was opened and, once it is, closed. */
  datatype MeasuredSet = MeasuredSet(first: map<nat, nat>, second: Option<map<nat, nat>>)

  datatype Session = Session(
    lines: seq<nat>,
    interval: nat,
    aggregate: bool,
    status: State,
    sets: seq<MeasuredSet>)

  function NewSession(lines: seq<nat>, interval: nat, aggregate: bool): Session {
    Session(lines, interval, aggregate, INACTIVE, [])
  }

  // ---- operations on the session's own state, given the current buffer sizes ----

  function Started(s: Session, sizes: map<nat, nat>): Session {
    s.(status := ACTIVE, sets := [MeasuredSet(sizes, None)])
  }

  function Continued(s: Session, sizes: map<nat, nat>): Session {
    s.(status := ACTIVE, sets := s.sets + [MeasuredSet(sizes, None)])
  }

  function Stopped(s: Session, sizes: map<nat, nat>): Session {
    s.(status := INACTIVE,
       sets := if s.sets == [] then [] else s.sets[|s.sets| - 1 := s.sets[|s.sets| - 1].(second := Some(sizes))])
  }

  // ---- the shape every session keeps ----

  /** Where the set ends on line l: its recorded end, or the end of the buffer so far. */
  function EndOf(ls: seq<LineState>, set_: MeasuredSet, l: nat): nat
    requires l < |ls|
  {
    if set_.second.Some? && l in set_.second.value then set_.second.value[l] else |ls[l].data|
  }

  ghost predicate SetOk(ls: seq<LineState>, lines: seq<nat>, set_: MeasuredSet)
    requires IsSelection(lines, |ls|)
  {
    && (forall l :: l in lines ==> l in set_.first)
    && (set_.second.Some? ==> forall l :: l in lines ==> l in set_.second.value)
    && (forall l :: l in lines ==> set_.first[l] <= EndOf(ls, set_, l) <= |ls[l].data|)
  }

  /** ACTIVE exactly when the last set is open, all earlier sets closed, and on every
      line first <= second <= next first <= buffer size. */
  ghost predicate SessionOk(ls: seq<LineState>, s: Session) {
    && IsSelection(s.lines, |ls|)
    && s.interval >= 1
    && (s.status == ACTIVE <==> s.sets != [] && s.sets[|s.sets| - 1].second.None?)
    && (forall i :: 0 <= i < |s.sets| - 1 ==> s.sets[i].second.Some?)
    && (forall i :: 0 <= i < |s.sets| ==> SetOk(ls, s.lines, s.sets[i]))
    && (forall i, j, l :: 0 <= i < j < |s.sets| && l in s.lines ==>
          EndOf(ls, s.sets[i], l) <= s.sets[j].first[l])
  }

  /** No open set: GET never reads a missing set end. */
  lemma InactiveSetsAreClosed(ls: seq<LineState>, s: Session, i: nat)
    requires SessionOk(ls, s) && s.status == INACTIVE && i < |s.sets|
    ensures s.sets[i].second.Some?
    ensures forall l :: l in s.lines ==> l in s.sets[i].second.value
  {
    assert SetOk(ls, s.lines, s.sets[i]);
  }

  /** The legacy guard last_set_completed() says no more than the status does. */
  lemma LastSetGuardRedundant(ls: seq<LineState>, s: Session)
    requires SessionOk(ls, s)
    ensures LastSetCompleted(s) <==> s.status == INACTIVE
  {
  }

  predicate LastSetCompleted(s: Session) {
    s.sets == [] || s.sets[|s.sets| - 1].second.Some?
  }

  // ---- what the sets delimit ----

  /** The samples of one set on the selected lines. */
  ghost function TakeOf(ls: seq<LineState>, lines: seq<nat>, set_: MeasuredSet): (t: Take)
    requires IsSelection(lines, |ls|) && SetOk(ls, lines, set_)
    ensures |t| == |lines|
  {
    seq(|lines|, r requires 0 <= r < |lines| =>
      ls[lines[r]].data[set_.first[lines[r]]..EndOf(ls, set_, lines[r])])
  }

  ghost function TakesOf(ls: seq<LineState>, s: Session): (ts: seq<Take>)
    requires SessionOk(ls, s)
    ensures |ts| == |s.sets| && IsTakes(ts, |s.lines|)
  {
    seq(|s.sets|, i requires 0 <= i < |s.sets| => TakeOf(ls, s.lines, s.sets[i]))
  }

  // ---- how the session shape survives changes of the buffers ----

  /** Buffers that only grow keep every session in shape. */
  ghost predicate Grows(ls: seq<LineState>, ls': seq<LineState>, lines: seq<nat>) {
    && |ls| == |ls'|
    && forall l: nat :: l in lines && l < |ls| ==> ls[l].data <= ls'[l].data
  }

  lemma GrowthKeepsShape(ls: seq<LineState>, ls': seq<LineState>, s: Session)
    requires SessionOk(ls, s) && Grows(ls, ls', s.lines)
    ensures SessionOk(ls', s)
  {
    forall i | 0 <= i < |s.sets| ensures SetOk(ls', s.lines, s.sets[i]) {
      assert SetOk(ls, s.lines, s.sets[i]);
    }
    forall i, j, l | 0 <= i < j < |s.sets| && l in s.lines
      ensures EndOf(ls', s.sets[i], l) <= s.sets[j].first[l]
    {
      assert SetOk(ls, s.lines, s.sets[i]);
      assert s.sets[i].second.Some?;
    }
  }

  lemma StartKeepsShape(ls: seq<LineState>, s: Session)
    requires SessionOk(ls, s)
    ensures SessionOk(ls, Started(s, Sizes(ls, s.lines)))
  {
  }

  lemma ContinueKeepsShape(ls: seq<LineState>, s: Session)
    requires SessionOk(ls, s) && s.status == INACTIVE
    ensures SessionOk(ls, Continued(s, Sizes(ls, s.lines)))
  {
    var s' := Continued(s, Sizes(ls, s.lines));
    var last := |s.sets|;
    forall i | 0 <= i <= last ensures SetOk(ls, s.lines, s'.sets[i]) {
      if i < last {
        assert SetOk(ls, s.lines, s.sets[i]);
      }
    }
    forall i, j, l | 0 <= i < j < |s'.sets| && l in s.lines
      ensures EndOf(ls, s'.sets[i], l) <= s'.sets[j].first[l]
    {
      assert SetOk(ls, s.lines, s.sets[i]);
    }
  }

  lemma StopKeepsShape(ls: seq<LineState>, s: Session)
    requires SessionOk(ls, s) && s.status == ACTIVE
    ensures SessionOk(ls, Stopped(s, Sizes(ls, s.lines)))
  {
    var s' := Stopped(s, Sizes(ls, s.lines));
    forall i | 0 <= i < |s.sets| ensures SetOk(ls, s.lines, s'.sets[i]) {
      assert SetOk(ls, s.lines, s.sets[i]);
    }
  }
}
