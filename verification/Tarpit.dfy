/** Admission to the tarpit and release from it (`honeypots/tarpit/server.py`). The two sections under the lock
    never suspend, so they are the atomic steps of any interleaving of sessions. */
module Tarpit {

  datatype Step<S> = Enter(session: S) | Leave(session: S)

  /** How a run of sessions ought to go: who is inside and who has left, at most `maxClients` at a time. */
  datatype Occupancy<!S> = Occupancy(inside: set<S>, left: set<S>)

  function After<S>(o: Occupancy<S>, step: Step<S>, maxClients: int): Occupancy<S> {
    match step
    case Enter(s) => if |o.inside| >= maxClients then o else o.(inside := o.inside + {s})
    case Leave(s) => Occupancy(o.inside - {s}, o.left + {s})
  }

  /** Every session enters once, and leaves only if it was admitted. */
  predicate Orderly<S>(o: Occupancy<S>, steps: seq<Step<S>>, maxClients: int)
    decreases |steps|
  {
    steps == [] || (
      && (if steps[0].Enter? then steps[0].session !in o.inside + o.left else steps[0].session in o.inside)
      && Orderly(After(o, steps[0], maxClients), steps[1..], maxClients))
  }

  function Run<S>(o: Occupancy<S>, steps: seq<Step<S>>, maxClients: int): Occupancy<S>
    decreases |steps|
  {
    if steps == [] then o else Run(After(o, steps[0], maxClients), steps[1..], maxClients)
  }

  /** How many of the admission requests were granted. */
  function Admissions(admitted: seq<bool>): nat {
    if admitted == [] then 0
    else Admissions(admitted[..|admitted| - 1]) + if admitted[|admitted| - 1] then 1 else 0
  }

  function Departures<S>(steps: seq<Step<S>>): nat {
    if steps == [] then 0 else Departures(steps[..|steps| - 1]) + if steps[|steps| - 1].Leave? then 1 else 0
  }

  function Entered<S>(steps: seq<Step<S>>, admitted: seq<bool>): set<S>
    requires |admitted| == |steps|
  {
    set i | 0 <= i < |steps| && admitted[i] :: steps[i].session
  }

  function Departed<S>(steps: seq<Step<S>>): set<S> { set i | 0 <= i < |steps| && steps[i].Leave? :: steps[i].session }

  lemma OneMore<S>(steps: seq<Step<S>>, admitted: seq<bool>, step: Step<S>, ok: bool)
    requires |admitted| == |steps|
    ensures Entered(steps + [step], admitted + [ok]) == Entered(steps, admitted) + if ok then {step.session} else {}
    ensures Departed(steps + [step]) == Departed(steps) + if step.Leave? then {step.session} else {}
  {
    var steps', admitted' := steps + [step], admitted + [ok];
    assert steps'[|steps|] == step && admitted'[|steps|] == ok;
    forall i | 0 <= i < |steps| ensures steps'[i] == steps[i] && admitted'[i] == admitted[i] {}
  }

  lemma CountOneMore<S>(steps: seq<Step<S>>, admitted: seq<bool>, step: Step<S>, ok: bool)
    ensures Admissions(admitted + [ok]) == Admissions(admitted) + if ok then 1 else 0
    ensures Departures(steps + [step]) == Departures(steps) + if step.Leave? then 1 else 0
  {
    assert (admitted + [ok])[..|admitted|] == admitted && (steps + [step])[..|steps|] == steps;
  }

  /** Each answer: a session was admitted exactly when fewer were inside than there was room for, counting those
      inside at first and the admissions and departures since. */
  ghost predicate Told<S>(active: int, steps: seq<Step<S>>, admitted: seq<bool>, maxClients: int)
    requires |admitted| == |steps|
  {
    forall i :: 0 <= i < |steps| ==>
      (admitted[i] <==> steps[i].Enter? && active + Admissions(admitted[..i]) - Departures(steps[..i]) < maxClients)
  }

  /** Inside are the sessions that were inside at first or admitted, and have not left. */
  ghost predicate Whereabouts<S>(start: Occupancy<S>, steps: seq<Step<S>>, admitted: seq<bool>, o: Occupancy<S>)
    requires |admitted| == |steps|
  {
    && o.inside == start.inside + Entered(steps, admitted) - Departed(steps)
    && o.left == start.left + Departed(steps)
  }

  lemma ToldStep<S>(
    active: int, steps: seq<Step<S>>, admitted: seq<bool>, maxClients: int, step: Step<S>, ok: bool
  )
    requires |admitted| == |steps| && Told(active, steps, admitted, maxClients)
    requires ok <==> step.Enter? && active + Admissions(admitted) - Departures(steps) < maxClients
    ensures Told(active, steps + [step], admitted + [ok], maxClients)
  {
    hide Admissions, Departures;
    forall i | 0 <= i < |steps| + 1
      ensures (steps + [step])[..i] == (if i < |steps| then steps[..i] else steps)
      ensures (admitted + [ok])[..i] == (if i < |steps| then admitted[..i] else admitted)
    {}
  }

  /** Where a step leads, given whether it was an admission. */
  function Moved<S>(o: Occupancy<S>, step: Step<S>, ok: bool): Occupancy<S> {
    if step.Leave? then Occupancy(o.inside - {step.session}, o.left + {step.session})
    else Occupancy(o.inside + (if ok then {step.session} else {}), o.left)
  }

  lemma WhereaboutsStep<S>(
    start: Occupancy<S>, steps: seq<Step<S>>, admitted: seq<bool>, o: Occupancy<S>, step: Step<S>, ok: bool
  )
    requires |admitted| == |steps| && Whereabouts(start, steps, admitted, o)
    requires if step.Enter? then step.session !in o.inside + o.left else !ok && step.session in o.inside
    ensures Whereabouts(start, steps + [step], admitted + [ok], Moved(o, step, ok))
  {
    hide Entered, Departed;
    OneMore(steps, admitted, step, ok);
  }

  class TarpitHoneypot<!S(==)> {
    const maxClients: int
    var activeClients: int
    var totalTrapped: nat

    ghost var occupancy: Occupancy<S>

    /** The counters are those of the sessions inside and gone, and the capacity is never exceeded. */
    ghost predicate Valid()
      reads this
    {
      && activeClients == |occupancy.inside|
      && totalTrapped == |occupancy.inside| + |occupancy.left|
      && occupancy.inside !! occupancy.left
      && (activeClients <= maxClients || activeClients == 0)
    }

    constructor (maxClients: int)
      ensures Valid() && occupancy == Occupancy({}, {}) && this.maxClients == maxClients
    {
      this.maxClients := maxClients;
      activeClients, totalTrapped, occupancy := 0, 0, Occupancy({}, {});
    }

    method Admit(session: S) returns (admitted: bool)
      requires Valid() && session !in occupancy.inside + occupancy.left
      modifies this
      ensures Valid() && occupancy == After(old(occupancy), Enter(session), maxClients)
      ensures admitted <==> old(activeClients) < maxClients
      ensures occupancy == Occupancy(old(occupancy.inside) + (if admitted then {session} else {}), old(occupancy.left))
      ensures activeClients == old(activeClients) + if admitted then 1 else 0
      ensures totalTrapped == old(totalTrapped) + if admitted then 1 else 0
    {
      if activeClients >= maxClients {
        return false;
      }
      activeClients := activeClients + 1;
      totalTrapped := totalTrapped + 1;
      occupancy := occupancy.(inside := occupancy.inside + {session});
      admitted := true;
    }

    method Release(session: S)
      requires Valid() && session in occupancy.inside
      modifies this
      ensures Valid() && occupancy == After(old(occupancy), Leave(session), maxClients)
      ensures occupancy == Occupancy(old(occupancy.inside) - {session}, old(occupancy.left) + {session})
      ensures activeClients == old(activeClients) - 1 && totalTrapped == old(totalTrapped)
    {
      activeClients := activeClients - 1;
      occupancy := Occupancy(occupancy.inside - {session}, occupancy.left + {session});
    }

    /** One step of a session: it asks to be admitted, or leaves. */
    method Take(step: Step<S>) returns (ok: bool)
      requires Valid()
      requires step.Enter? ==> step.session !in occupancy.inside + occupancy.left
      requires step.Leave? ==> step.session in occupancy.inside
      modifies this
      ensures Valid() && occupancy == After(old(occupancy), step, maxClients)
      ensures ok <==> step.Enter? && old(activeClients) < maxClients
      ensures occupancy == Moved(old(occupancy), step, ok)
      ensures activeClients == old(activeClients) + (if ok then 1 else 0) - if step.Leave? then 1 else 0
      ensures totalTrapped == old(totalTrapped) + if ok then 1 else 0
    {
      hide After, Valid;
      match step {
        case Enter(s) => ok := Admit(s);
        case Leave(s) =>
          Release(s);
          ok := false;
      }
    }

    /** Any interleaving of any number of sessions: who is admitted, who is inside, and the counters. */
    method Sessions(steps: seq<Step<S>>) returns (admitted: seq<bool>)
      requires Valid() && Orderly(occupancy, steps, maxClients)
      modifies this
      ensures Valid() && occupancy == Run(old(occupancy), steps, maxClients)
      ensures |admitted| == |steps| && Told(old(activeClients), steps, admitted, maxClients)
      ensures Whereabouts(old(occupancy), steps, admitted, occupancy)
      ensures activeClients == old(activeClients) + Admissions(admitted) - Departures(steps)
      ensures totalTrapped == old(totalTrapped) + Admissions(admitted)
    {
      hide *;
      admitted := [];
      ghost var active, trapped, start := activeClients, totalTrapped, occupancy;
      var i := 0;
      assert steps[..0] == [] && steps[0..] == steps;
      Untouched(occupancy, activeClients, maxClients);
      while i < |steps|
        invariant 0 <= i <= |steps| && |admitted| == i && Valid() && Orderly(occupancy, steps[i..], maxClients)
        invariant Run(occupancy, steps[i..], maxClients) == Run(start, steps, maxClients)
        invariant Told(active, steps[..i], admitted, maxClients)
        invariant Whereabouts(start, steps[..i], admitted, occupancy)
        invariant activeClients == active + Admissions(admitted) - Departures(steps[..i])
        invariant totalTrapped == trapped + Admissions(admitted)
      {
        ghost var before := occupancy;
        Unfold(occupancy, steps, i, maxClients);
        var ok := Take(steps[i]);
        assert steps[..i + 1] == steps[..i] + [steps[i]];
        ToldStep(active, steps[..i], admitted, maxClients, steps[i], ok);
        WhereaboutsStep(start, steps[..i], admitted, before, steps[i], ok);
        CountOneMore(steps[..i], admitted, steps[i], ok);
        admitted := admitted + [ok];
        i := i + 1;
      }
      RunOver(occupancy, steps, maxClients);
      assert steps[..|steps|] == steps;
    }
  }

  lemma Untouched<S>(o: Occupancy<S>, active: int, maxClients: int)
    ensures Told<S>(active, [], [], maxClients) && Whereabouts(o, [], [], o)
    ensures Admissions([]) == 0 && Departures<S>([]) == 0
  {}

  lemma Unfold<S>(o: Occupancy<S>, steps: seq<Step<S>>, i: nat, maxClients: int)
    requires i < |steps| && Orderly(o, steps[i..], maxClients)
    ensures if steps[i].Enter? then steps[i].session !in o.inside + o.left else steps[i].session in o.inside
    ensures Orderly(After(o, steps[i], maxClients), steps[i + 1..], maxClients)
    ensures Run(o, steps[i..], maxClients) == Run(After(o, steps[i], maxClients), steps[i + 1..], maxClients)
  {
    assert steps[i..][0] == steps[i] && steps[i..][1..] == steps[i + 1..];
  }

  lemma RunOver<S>(o: Occupancy<S>, steps: seq<Step<S>>, maxClients: int)
    ensures Run(o, steps[|steps|..], maxClients) == o
  {}
}
