/** The lines of a device and the buffers that all counters share. Each method of
    Device is one atomic step: the model does not interleave inside an operation. */
module Buffers {
  import opened Lines

  /** The reference counts of a line and its sample buffer. */
  datatype LineState = LineState(enabled: nat, active: nat, data: seq<real>)

  function Enabled(l: LineState): LineState { l.(enabled := l.enabled + 1) }

  function Disabled(l: LineState): LineState { l.(enabled := if l.enabled > 0 then l.enabled - 1 else 0) }

  function Activated(l: LineState): LineState { l.(active := l.active + 1) }

  function Deactivated(l: LineState): LineState { l.(active := if l.active > 0 then l.active - 1 else 0) }

  /** Disabled, and emptied when nobody has the line enabled any more. */
  function Released(l: LineState): LineState {
    if Disabled(l).enabled > 0 then Disabled(l) else Disabled(l).(data := [])
  }

  function Pushed(l: LineState, d: real): LineState {
    if l.active > 0 then l.(data := l.data + [d]) else l
  }

  /** f applied to the selected lines. */
  function UpdateLines(ls: seq<LineState>, sel: seq<nat>, f: LineState -> LineState): (r: seq<LineState>)
    ensures |r| == |ls|
  {
    seq(|ls|, i requires 0 <= i < |ls| => if i in sel then f(ls[i]) else ls[i])
  }

  /** One sample, one value per line. */
  function PushSample(ls: seq<LineState>, sample: seq<real>): (r: seq<LineState>)
    requires |ls| <= |sample|
    ensures |r| == |ls|
  {
    seq(|ls|, i requires 0 <= i < |ls| => Pushed(ls[i], sample[i]))
  }

  predicate IsSelection(sel: seq<nat>, n: nat) {
    Increasing(sel) && forall i :: 0 <= i < |sel| ==> sel[i] < n
  }

  function Sizes(ls: seq<LineState>, sel: seq<nat>): map<nat, nat>
    requires IsSelection(sel, |ls|)
  {
    map l | l in sel :: |ls[l].data|
  }

  lemma UpdateNext(ls: seq<LineState>, sel: seq<nat>, f: LineState -> LineState, i: nat)
    requires IsSelection(sel, |ls|) && i < |sel|
    ensures UpdateLines(ls, sel[..i], f)[sel[i]] == ls[sel[i]]
    ensures UpdateLines(ls, sel[..i + 1], f) == UpdateLines(ls, sel[..i], f)[sel[i] := f(ls[sel[i]])]
  {
    assert sel[..i + 1] == sel[..i] + [sel[i]];
  }

  class Line {
    var enabled: nat
    var active: nat
    var data: seq<real>

    ghost function State(): LineState
      reads this
    {
      LineState(enabled, active, data)
    }

    constructor ()
      ensures State() == LineState(0, 0, [])
    {
      enabled, active, data := 0, 0, [];
    }

    method Enable()
      modifies this
      ensures State() == Enabled(old(State()))
    {
      enabled := enabled + 1;
    }

    method Disable()
      modifies this
      ensures State() == Disabled(old(State()))
    {
      if enabled > 0 { enabled := enabled - 1; } else { enabled := 0; }
    }

    method Activate()
      modifies this
      ensures State() == Activated(old(State()))
    {
      active := active + 1;
    }

    method Deactivate()
      modifies this
      ensures State() == Deactivated(old(State()))
    {
      if active > 0 { active := active - 1; } else { active := 0; }
    }

    predicate IsEnabled()
      reads this
    {
      enabled > 0
    }

    predicate IsActive()
      reads this
    {
      active > 0
    }

    method ClearData()
      modifies this
      ensures State() == old(State()).(data := [])
    {
      data := [];
    }

    method PushBackData(d: real)
      modifies this
      ensures State() == old(State()).(data := old(data) + [d])
    {
      data := data + [d];
    }
  }

  class Device {
    /** The lines by number; the configuration check makes the numbers 0..n-1. */
    const lines: seq<Line>
    const maxFrequency: nat
    /** What the device keeps of each registered counter: its line list. */
    var counterMap: map<int, seq<nat>>

    ghost predicate Valid() {
      forall i, j :: 0 <= i < j < |lines| ==> lines[i] != lines[j]
    }

    ghost function State(): (s: seq<LineState>)
      reads lines
      ensures |s| == |lines|
    {
      seq(|lines|, i requires 0 <= i < |lines| reads lines => lines[i].State())
    }

    constructor (lines: seq<Line>, maxFrequency: nat)
      requires forall i, j :: 0 <= i < j < |lines| ==> lines[i] != lines[j]
      ensures Valid() && this.lines == lines && this.maxFrequency == maxFrequency
      ensures counterMap == map[]
    {
      this.lines := lines;
      this.maxFrequency := maxFrequency;
      counterMap := map[];
    }

    method RegisterCounter(id: int, sel: seq<nat>)
      requires Valid() && IsSelection(sel, |lines|)
      modifies this, lines
      ensures counterMap == old(counterMap)[id := sel]
      ensures State() == UpdateLines(old(State()), sel, Enabled)
    {
      counterMap := counterMap[id := sel];
      var i := 0;
      while i < |sel|
        invariant 0 <= i <= |sel|
        invariant counterMap == old(counterMap)[id := sel]
        invariant State() == UpdateLines(old(State()), sel[..i], Enabled)
      {
        UpdateNext(old(State()), sel, Enabled, i);
        ghost var before := State();
        lines[sel[i]].Enable();
        assert State() == before[sel[i] := Enabled(before[sel[i]])];
        i := i + 1;
      }
      assert sel[..|sel|] == sel;
    }

    method DeregisterCounter(id: int, sel: seq<nat>)
      requires Valid() && IsSelection(sel, |lines|)
      modifies this, lines
      ensures counterMap == old(counterMap) - {id}
      ensures State() == if id in old(counterMap) then UpdateLines(old(State()), sel, Released) else old(State())
    {
      if id in counterMap {
        var i := 0;
        while i < |sel|
          invariant 0 <= i <= |sel|
          invariant counterMap == old(counterMap)
          invariant State() == UpdateLines(old(State()), sel[..i], Released)
        {
          UpdateNext(old(State()), sel, Released, i);
          ghost var before := State();
          lines[sel[i]].Disable();
          if !lines[sel[i]].IsEnabled() {
            lines[sel[i]].ClearData();
          }
          assert State() == before[sel[i] := Released(before[sel[i]])];
          i := i + 1;
        }
        assert sel[..|sel|] == sel;
        counterMap := counterMap - {id};
      }
    }

    method PushBackData(sample: seq<real>)
      requires Valid() && |sample| >= |lines|
      modifies lines
      ensures State() == PushSample(old(State()), sample)
    {
      var i := 0;
      while i < |lines|
        invariant 0 <= i <= |lines|
        invariant forall j :: 0 <= j < i ==> State()[j] == Pushed(old(State())[j], sample[j])
        invariant forall j :: i <= j < |lines| ==> State()[j] == old(State())[j]
      {
        ghost var before := State();
        if lines[i].IsActive() {
          lines[i].PushBackData(sample[i]);
        }
        assert State() == before[i := Pushed(before[i], sample[i])];
        i := i + 1;
      }
    }

    method GetLinesSizes(sel: seq<nat>) returns (sizes: map<nat, nat>)
      requires Valid() && IsSelection(sel, |lines|)
      ensures sizes == Sizes(State(), sel)
    {
      sizes := map[];
      var i := 0;
      while i < |sel|
        invariant 0 <= i <= |sel|
        invariant sizes == map l | l in sel[..i] :: |State()[l].data|
      {
        sizes := sizes[sel[i] := |lines[sel[i]].data|];
        assert sel[..i + 1] == sel[..i] + [sel[i]];
        i := i + 1;
      }
      assert sel[..|sel|] == sel;
    }

    method StartCounter(sel: seq<nat>)
      requires Valid() && IsSelection(sel, |lines|)
      modifies lines
      ensures State() == UpdateLines(old(State()), sel, Activated)
    {
      var i := 0;
      while i < |sel|
        invariant 0 <= i <= |sel|
        invariant State() == UpdateLines(old(State()), sel[..i], Activated)
      {
        UpdateNext(old(State()), sel, Activated, i);
        ghost var before := State();
        lines[sel[i]].Activate();
        assert State() == before[sel[i] := Activated(before[sel[i]])];
        i := i + 1;
      }
      assert sel[..|sel|] == sel;
    }

    method StopCounter(sel: seq<nat>)
      requires Valid() && IsSelection(sel, |lines|)
      modifies lines
      ensures State() == UpdateLines(old(State()), sel, Deactivated)
    {
      var i := 0;
      while i < |sel|
        invariant 0 <= i <= |sel|
        invariant State() == UpdateLines(old(State()), sel[..i], Deactivated)
      {
        UpdateNext(old(State()), sel, Deactivated, i);
        ghost var before := State();
        lines[sel[i]].Deactivate();
        assert State() == before[sel[i] := Deactivated(before[sel[i]])];
        i := i + 1;
      }
      assert sel[..|sel|] == sel;
    }
  }
}
