/** The client's timing array (pm_start_counter, pm_continue_counter, pm_stop_counter)
    run together with the server's list of sets. */
module Timing {
  import opened Util
  import opened Buffers
  import opened Sessions
  import opened Isolation

  const TIMELEN := 10000

  datatype Times = Times(next_timing: nat, timing: seq<real>)

  // ---- the three calls, when the server answers with success ----

  function StartTimes(c: Times, t: real): Times
    requires |c.timing| == TIMELEN
  {
    Times(0, c.timing[0 := t])
  }

  function ContinueTimes(c: Times, t: real): Times
    requires |c.timing| == TIMELEN && 2 * c.next_timing < TIMELEN
  {
    c.(timing := c.timing[2 * c.next_timing := t])
  }

  function StopTimes(c: Times, t: real): Times
    requires |c.timing| == TIMELEN && 2 * c.next_timing + 1 < TIMELEN
  {
    Times(c.next_timing + 1, c.timing[2 * c.next_timing + 1 := t])
  }

  class Measures {
    var next_timing: nat
    const timing: array<real>

    ghost predicate Valid() {
      timing.Length == TIMELEN
    }

    ghost function View(): Times
      reads this, timing
    {
      Times(next_timing, timing[..])
    }

    constructor ()
      ensures Valid() && next_timing == 0
    {
      next_timing := 0;
      timing := new real[TIMELEN];
    }

    method StartCounter(temp: real)
      requires Valid()
      modifies this, timing
      ensures View() == StartTimes(old(View()), temp)
    {
      next_timing := 0;
      timing[next_timing] := temp;
    }

    method ContinueCounter(temp: real)
      requires Valid() && 2 * next_timing < TIMELEN
      modifies timing
      ensures View() == ContinueTimes(old(View()), temp)
    {
      timing[next_timing * 2] := temp;
    }

    method StopCounter(temp: real)
      requires Valid() && 2 * next_timing + 1 < TIMELEN
      modifies this, timing
      ensures View() == StopTimes(old(View()), temp)
    {
      timing[next_timing * 2 + 1] := temp;
      next_timing := next_timing + 1;
    }
  }

  // ---- client and server together ----

  /** When a set was opened and, if it is, closed, by the client's clock. */
  datatype Span = Span(began: real, ended: Option<real>)

  datatype Product = Product(client: Times, server: Recording, spans: seq<Span>)

  /** A successful call at a time, or a sample arriving at the server. */
  datatype Happening =
    | Call(op: Operation, time: real)
    | Hear(values: seq<real>)

  /** The call goes through: the server accepts it and the timing array has room. A
      refused call makes the client process exit. */
  predicate Possible(n: nat, legacy: bool, p: Product, h: Happening) {
    && RecordingOk(n, p.server)
    && match h
       case Hear(values) => |values| == n
       case Call(op, _) =>
         && op in {START, CONTINUE, STOP}
         && Perform(legacy, op, p.server).2 == SUCCESS
         && (op != START ==> 2 * p.client.next_timing + 1 < TIMELEN)
  }

  function Next(n: nat, legacy: bool, p: Product, h: Happening): Product
    requires Possible(n, legacy, p, h) && |p.client.timing| == TIMELEN
    requires p.server.status == ACTIVE ==> p.spans != []
  {
    match h
    case Hear(values) => p.(server := Heard(p.server, values))
    case Call(op, t) =>
      var server := Perform(legacy, op, p.server).0;
      if op == START then Product(StartTimes(p.client, t), server, [Span(t, None)])
      else if op == CONTINUE then Product(ContinueTimes(p.client, t), server, p.spans + [Span(t, None)])
      else Product(StopTimes(p.client, t), server, p.spans[|p.spans| - 1 := p.spans[|p.spans| - 1].(ended := Some(t))])
  }

  function ClosedSets(r: Recording): int {
    if r.status == ACTIVE then |r.takes| - 1 else |r.takes|
  }

  /** next_timing is the number of closed sets and timing pair s is the span of set s. */
  predicate InStep(n: nat, p: Product) {
    && RecordingOk(n, p.server) && |p.client.timing| == TIMELEN
    && |p.spans| == |p.server.takes|
    && p.client.next_timing == ClosedSets(p.server)
    && 2 * p.client.next_timing <= TIMELEN
    && (forall s :: 0 <= s < p.client.next_timing ==>
          p.client.timing[2 * s] == p.spans[s].began && p.spans[s].ended == Some(p.client.timing[2 * s + 1]))
    && (p.server.status == ACTIVE ==>
          && 2 * p.client.next_timing < TIMELEN
          && p.client.timing[2 * p.client.next_timing] == p.spans[p.client.next_timing].began
          && p.spans[p.client.next_timing].ended == None)
  }

  lemma NextInStep(n: nat, legacy: bool, p: Product, h: Happening)
    requires InStep(n, p) && Possible(n, legacy, p, h)
    ensures InStep(n, Next(n, legacy, p, h))
  {
  }

  /** A history of successful calls and samples. */
  ghost predicate Follows(n: nat, legacy: bool, p: Product, hs: seq<Happening>, q: Product)
    decreases |hs|
  {
    if hs == [] then p == q
    else
      && Possible(n, legacy, p, hs[0]) && |p.client.timing| == TIMELEN
      && (p.server.status == ACTIVE ==> p.spans != [])
      && Follows(n, legacy, Next(n, legacy, p, hs[0]), hs[1..], q)
  }

  /** After any such history client and server are in step, so the reply to GET has
      watts_sets_size = next_timing + 1. */
  lemma {:induction false} ClientAndServerInStep(n: nat, legacy: bool, p: Product, hs: seq<Happening>, q: Product)
    requires InStep(n, p) && Follows(n, legacy, p, hs, q)
    ensures InStep(n, q)
    ensures q.server.status == INACTIVE ==> |RecordedReply(legacy, q.server).wattsSets| == q.client.next_timing + 1
    decreases |hs|
  {
    if hs != [] {
      NextInStep(n, legacy, p, hs[0]);
      ClientAndServerInStep(n, legacy, Next(n, legacy, p, hs[0]), hs[1..], q);
    }
  }

  /** A counter just created is in step. */
  lemma FreshCounterInStep(n: nat, lines: seq<nat>, k: nat, aggregate: bool, timing: seq<real>)
    requires IsSelection(lines, n) && k >= 1 && |timing| == TIMELEN
    ensures InStep(n, Product(Times(0, timing), Recording(lines, k, aggregate, INACTIVE, []), []))
  {
  }
}
