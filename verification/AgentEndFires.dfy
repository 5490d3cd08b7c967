/** One fire among everything else that goes on: when it covers its transcript,
    and how long it can run. */
module AgentEndFires {
  import opened Transcript
  import opened Watermarks
  import opened AgentEnd
  import opened AgentEndProof

  function RunFrom(strip: string -> string, sys: Sys, events: seq<Event>): Sys {
    if events == [] then sys
    else Step(strip, RunFrom(strip, sys, events[..|events| - 1]), events[|events| - 1])
  }

  /** The same fire, perhaps further on. */
  predicate StillRunning(sys: Sys, s: string, f: Flight) {
    s in sys.flights && sys.flights[s].(next := f.next, phase := f.phase) == f
  }

  /** What makes a fire of `s` give up: a crash, a marker commit that is not
      written, or a second attempt that is not answered as stored. */
  predicate Fails(sys: Sys, s: string, e: Event) {
    match e
    case Crashed => true
    case Proceed(t, ok) => t == s && !ok
    case Reply(t, outcome) => t == s && outcome != Stored && s in sys.flights && sys.flights[s].phase != Sending(0)
    case _ => false
  }

  ghost predicate Unfailed(strip: string -> string, sys: Sys, s: string, f: Flight, events: seq<Event>) {
    forall i :: 0 <= i < |events| && StillRunning(RunFrom(strip, sys, events[..i]), s, f) ==>
      !Fails(RunFrom(strip, sys, events[..i]), s, events[i])
  }

  ghost predicate AllCovered(strip: string -> string, sys: Sys, s: string, messages: seq<Message>) {
    var pairs := AllPairs(strip, messages);
    forall j :: 0 <= j < |pairs| ==> Covered(strip, sys, s, pairs[j])
  }

  /** The steps a fire can still take. */
  function Work(f: Flight): int {
    3 * (|f.pairs| - f.next) + match f.phase case Idle => 2 case Sending(attempt) => if attempt == 0 then 1 else 0
  }

  /** An event that moves a running fire of `s` along. */
  predicate IsOwnStep(sys: Sys, s: string, e: Event) {
    && s in sys.flights
    && match e
       case Proceed(t, _) => t == s && sys.flights[s].phase == Idle
       case Reply(t, _) => t == s && sys.flights[s].phase != Idle
       case _ => false
  }

  function OwnSteps(strip: string -> string, sys: Sys, s: string, events: seq<Event>): nat {
    if events == [] then 0
    else
      var before := events[..|events| - 1];
      OwnSteps(strip, sys, s, before) + if IsOwnStep(RunFrom(strip, sys, before), s, events[|events| - 1]) then 1 else 0
  }

  lemma StepGrows(strip: string -> string, sys: Sys, e: Event)
    ensures Grows(sys, Step(strip, sys, e))
  {
    hide Apply, AllPairs, HasMarker;
  }

  lemma CoverageStays(strip: string -> string, sys: Sys, sys': Sys, s: string, messages: seq<Message>)
    requires Grows(sys, sys') && AllCovered(strip, sys, s, messages)
    ensures AllCovered(strip, sys', s, messages)
  {
    var pairs := AllPairs(strip, messages);
    forall j | 0 <= j < |pairs| ensures Covered(strip, sys', s, pairs[j]) {
      CoveredGrows(strip, sys, sys', s, pairs[j]);
    }
  }

  lemma FlightIsOk(strip: string -> string, sys: Sys, s: string)
    requires Inv(strip, sys) && s in sys.flights
    ensures FlightOk(strip, sys, s, sys.flights[s])
  {
  }

  lemma OtherEventsPass(strip: string -> string, sys: Sys, s: string, e: Event)
    requires s in sys.flights && !e.Crashed?
    requires !(e.Proceed? && e.s == s) && !(e.Reply? && e.s == s)
    ensures var sys' := Step(strip, sys, e); s in sys'.flights && sys'.flights[s] == sys.flights[s]
  {
    hide Apply, AllPairs, HasMarker;
  }

  lemma ProceedMoves(strip: string -> string, sys: Sys, s: string)
    requires s in sys.flights && sys.flights[s].phase == Idle && sys.flights[s].next < |sys.flights[s].pairs|
    ensures var sys', f := ProceedFire(strip, sys, s, true), sys.flights[s];
            StillRunning(sys', s, f) && Work(sys'.flights[s]) < Work(f)
  {
    hide Apply, AllPairs, HasMarker;
  }

  lemma ReplyMoves(sys: Sys, s: string, outcome: Outcome)
    requires s in sys.flights && sys.flights[s].phase != Idle && sys.flights[s].next < |sys.flights[s].pairs|
    requires outcome == Stored || sys.flights[s].phase == Sending(0)
    ensures var sys', f := ReplyToFire(sys, s, outcome), sys.flights[s];
            StillRunning(sys', s, f) && Work(sys'.flights[s]) < Work(f)
  {
    hide Apply;
  }

  /** One event: the fire goes on, or it has just covered everything. */
  lemma FireStep(strip: string -> string, sys: Sys, s: string, e: Event)
    requires s in sys.flights && FlightOk(strip, sys, s, sys.flights[s]) && !Fails(sys, s, e)
    ensures var sys', f := Step(strip, sys, e), sys.flights[s];
            || AllCovered(strip, sys', s, f.messages)
            || (StillRunning(sys', s, f) &&
                Work(sys'.flights[s]) + (if IsOwnStep(sys, s, e) then 1 else 0) <= Work(f))
  {
    hide AllPairs, Covered, Work, Apply, HasMarker;
    var f := sys.flights[s];
    if e.Proceed? && e.s == s {
      if f.phase == Idle && f.next < |f.pairs| {
        ProceedMoves(strip, sys, s);
      } else if f.phase == Idle {
        StepGrows(strip, sys, e);
        assert AllCovered(strip, sys, s, f.messages);
        CoverageStays(strip, sys, Step(strip, sys, e), s, f.messages);
      }
    } else if e.Reply? && e.s == s {
      if f.phase != Idle { ReplyMoves(sys, s, e.outcome); }
    } else {
      OtherEventsPass(strip, sys, s, e);
    }
  }

  /** The fire `f` of `s` after `steps` steps of its own. */
  ghost predicate FireOk(strip: string -> string, sys: Sys, s: string, f: Flight, steps: nat) {
    || AllCovered(strip, sys, s, f.messages)
    || (StillRunning(sys, s, f) && Work(sys.flights[s]) + steps <= Work(f))
  }

  lemma StepKeepsFireOk(strip: string -> string, sys: Sys, s: string, f: Flight, steps: nat, e: Event)
    requires Inv(strip, sys) && FireOk(strip, sys, s, f, steps)
    requires StillRunning(sys, s, f) ==> !Fails(sys, s, e)
    ensures FireOk(strip, Step(strip, sys, e), s, f, steps + if IsOwnStep(sys, s, e) then 1 else 0)
  {
    hide Inv, AllCovered, Step, Work, IsOwnStep, Fails, FlightOk;
    StepGrows(strip, sys, e);
    if AllCovered(strip, sys, s, f.messages) {
      CoverageStays(strip, sys, Step(strip, sys, e), s, f.messages);
    } else {
      FlightIsOk(strip, sys, s);
      FireStep(strip, sys, s, e);
    }
  }

  lemma UnfailedPrefix(strip: string -> string, sys: Sys, s: string, f: Flight, events: seq<Event>)
    requires Unfailed(strip, sys, s, f, events) && events != []
    ensures var n := |events| - 1;
            var before := RunFrom(strip, sys, events[..n]);
            && Unfailed(strip, sys, s, f, events[..n])
            && (StillRunning(before, s, f) ==> !Fails(before, s, events[n]))
  {
    hide RunFrom, StillRunning, Fails;
    var prior := events[..|events| - 1];
    assert forall i :: 0 <= i < |prior| ==> prior[..i] == events[..i] && prior[i] == events[i];
  }

  /** Whatever is interleaved with it, a fire that does not fail is still running,
      with its own steps used up one by one, or has covered every pair of its
      transcript. */
  lemma {:induction false} UnfailedFireCovers(strip: string -> string, sys: Sys, s: string, events: seq<Event>)
    requires Inv(strip, sys) && s in sys.flights && Unfailed(strip, sys, s, sys.flights[s], events)
    ensures Inv(strip, RunFrom(strip, sys, events))
    ensures FireOk(strip, RunFrom(strip, sys, events), s, sys.flights[s], OwnSteps(strip, sys, s, events))
    decreases |events|
  {
    if events != [] {
      hide Inv, FireOk, StillRunning, Step, Work, IsOwnStep, Fails, Unfailed;
      var f, n := sys.flights[s], |events| - 1;
      var prior := events[..n];
      UnfailedPrefix(strip, sys, s, f, events);
      UnfailedFireCovers(strip, sys, s, prior);
      StepKeepsInv(strip, RunFrom(strip, sys, prior), events[n]);
      StepKeepsFireOk(strip, RunFrom(strip, sys, prior), s, f, OwnSteps(strip, sys, s, prior), events[n]);
    }
  }

  /** So a fire that does not fail covers every pair once it is over, and it is
      over after a bounded number of its own steps, whatever else goes on. */
  lemma FinishedFireCovers(strip: string -> string, sys: Sys, s: string, events: seq<Event>)
    requires Inv(strip, sys) && s in sys.flights && Unfailed(strip, sys, s, sys.flights[s], events)
    requires || !StillRunning(RunFrom(strip, sys, events), s, sys.flights[s])
             || OwnSteps(strip, sys, s, events) > Work(sys.flights[s])
    ensures AllCovered(strip, RunFrom(strip, sys, events), s, sys.flights[s].messages)
  {
    hide AllCovered;
    UnfailedFireCovers(strip, sys, s, events);
    var sys' := RunFrom(strip, sys, events);
    if s in sys'.flights { FlightIsOk(strip, sys', s); }
  }
}
