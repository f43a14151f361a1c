/** What each operation on a reservation leaves behind when nobody else is at work: every size, every liveness and the
    counter, after the operation has run to its end. */
module MemoryOutcomes {
  import opened MemoryReservation
  import opened Options

  /** A reservation of so many bytes at rest. */
  function Live(bytes: nat): Lease { Lease(bytes, bytes, None, true) }

  /** `n` more steps of one thread. */
  function Finish(s: State, t: nat, n: nat): State {
    if n == 0 then s else Act(Finish(s, t, n - 1), Next(t, false))
  }

  /** One thread carries an operation through. */
  function Alone(s: State, t: nat, op: Operation, steps: nat): State { Finish(Act(s, Start(t, op)), t, steps) }

  /** A state that a run reached and in which nothing is in flight. */
  ghost predicate Rests(s: State, t: nat) {
    && Quiet(s) && t < |s.threads| && Inv(s, DEFAULT_LIMIT)
  }

  lemma QuietRests(threads: nat, actions: seq<Action>, t: nat)
    requires AllWithin(actions, DEFAULT_LIMIT) && t < threads && Quiet(Run(threads, actions))
    ensures Rests(Run(threads, actions), t)
  {
    EveryInterleaving(threads, actions, DEFAULT_LIMIT);
  }

  /** The counter and the reservations afterwards; every thread is where it was. */
  predicate Leaves(r: State, s: State, counter: int, leases: seq<Lease>) {
    r.counter == counter && r.leases == leases && r.threads == s.threads
  }

  lemma Steps(s: State, t: nat)
    ensures Finish(s, t, 1) == Act(s, Next(t, false))
    ensures Finish(s, t, 2) == Act(Act(s, Next(t, false)), Next(t, false))
    ensures Finish(s, t, 3) == Act(Act(Act(s, Next(t, false)), Next(t, false)), Next(t, false))
    ensures Finish(s, t, 5) == Act(Act(Act(Act(Act(s, Next(t, false)), Next(t, false)), Next(t, false)), Next(t, false)), Next(t, false))
  {
    hide Act;
    assert Finish(s, t, 0) == s;
    assert Finish(s, t, 1) == Act(Finish(s, t, 0), Next(t, false));
    assert Finish(s, t, 2) == Act(Finish(s, t, 1), Next(t, false));
    assert Finish(s, t, 3) == Act(Finish(s, t, 2), Next(t, false));
    assert Finish(s, t, 4) == Act(Finish(s, t, 3), Next(t, false));
    assert Finish(s, t, 5) == Act(Finish(s, t, 4), Next(t, false));
  }

  /** At rest a lease is its size, and the counter holds at least that much. */
  lemma AtRest(s: State, t: nat, l: nat)
    requires Rests(s, t) && l < |s.leases| && s.leases[l].live
    ensures s.leases[l] == Live(s.leases[l].bytes) && s.leases[l].bytes <= s.counter <= DEFAULT_LIMIT
    ensures s.threads[t] == Idle && s.threads[t := Idle] == s.threads
  {
    ChargeIsCounted(s, l, DEFAULT_LIMIT);
    assert Resting(s.leases[l]);
  }

  /** A move gives the target the source's bytes, leaves the source empty, and takes only what the target held off the
      counter; onto itself it does nothing. */
  lemma MoveGivesBytes(s: State, t: nat, into: nat, source: nat)
    requires Rests(s, t) && into < |s.leases| && source < |s.leases|
    requires s.leases[into].live && s.leases[source].live
    ensures var r := Alone(s, t, MoveInto(into, source), 3);
      if into == source then r == s
      else Leaves(r, s, s.counter - s.leases[into].bytes, s.leases[into := Live(s.leases[source].bytes)][source := Live(0)])
  {
    AtRest(s, t, into);
    AtRest(s, t, source);
    Steps(Act(s, Start(t, MoveInto(into, source))), t);
    hide Finish, Rests;
    if into != source {
      MoveSteps(s, t, into, source, s.leases[into].bytes, s.leases[source].bytes);
      hide Act;
    }
  }

  lemma MoveSteps(s: State, t: nat, into: nat, source: nat, had: nat, given: nat)
    requires t < |s.threads| && s.threads[t] == Idle && s.threads[t := Idle] == s.threads && had <= s.counter
    requires into < |s.leases| && source < |s.leases| && into != source
    requires s.leases[into] == Live(had) && s.leases[source] == Live(given)
    ensures var begun := Act(s, Start(t, MoveInto(into, source)));
      Leaves(Act(Act(Act(begun, Next(t, false)), Next(t, false)), Next(t, false)), s,
             s.counter - had, s.leases[into := Live(given)][source := Live(0)])
  {
    var begun := Act(s, Start(t, MoveInto(into, source)));
    assert begun.threads == s.threads[t := Vacate(into, source)] && begun.counter == s.counter;
    var vacated := Act(begun, Next(t, false));
    assert vacated.threads == s.threads[t := Exchange(into, source)] && vacated.counter == s.counter - had;
    var taken := Act(vacated, Next(t, false));
    assert taken.threads == s.threads[t := Receive(into, given)] && taken.counter == s.counter - had;
  }

  /** Moving into a new reservation leaves the counter alone. */
  lemma MoveNewGivesBytes(s: State, t: nat, source: nat)
    requires Rests(s, t) && source < |s.leases| && s.leases[source].live
    ensures Leaves(Alone(s, t, MoveNew(source), 2), s, s.counter, s.leases[source := Live(0)] + [Live(s.leases[source].bytes)])
  {
    AtRest(s, t, source);
    Steps(Act(s, Start(t, MoveNew(source))), t);
    hide Inv, Quiet, Charged, Hands, Finish;
  }

  /** Shrinking gives back exactly the difference; asked for more than it holds, it does nothing. */
  lemma ShrinkGivesBack(s: State, t: nat, l: nat, bytes: nat)
    requires Rests(s, t) && l < |s.leases| && s.leases[l].live
    ensures var r := Alone(s, t, Shrink(l, bytes), 2);
      if bytes <= s.leases[l].bytes
      then Leaves(r, s, s.counter - s.leases[l].bytes + bytes, s.leases[l := Live(bytes)]) else r == s
  {
    AtRest(s, t, l);
    Steps(Act(s, Start(t, Shrink(l, bytes))), t);
    hide Inv, Quiet, Charged, Hands, Finish;
  }

  /** Resizing to less is shrinking; to more, it is granted exactly if the growth fits beside everything that lives, and
      then the reservation has the new size and the counter the difference. */
  lemma ResizeSettles(s: State, t: nat, l: nat, bytes: nat, maximum: nat)
    requires Rests(s, t) && l < |s.leases| && s.leases[l].live
    ensures var had, r := s.leases[l].bytes, Alone(s, t, Resize(l, bytes, maximum), 5);
      if bytes <= had || Kept(s.leases) - had + bytes <= Min(maximum, DEFAULT_LIMIT)
      then Leaves(r, s, s.counter - had + bytes, s.leases[l := Live(bytes)]) else r == s
  {
    Steps(Act(s, Start(t, Resize(l, bytes, maximum))), t);
    CounterIsKept(s, t);
    hide *;
    if bytes <= s.leases[l].bytes {
      ResizeSmaller(s, t, l, bytes, maximum);
    } else {
      ResizeLarger(s, t, l, bytes, maximum);
    }
  }

  lemma ResizeSmaller(s: State, t: nat, l: nat, bytes: nat, maximum: nat)
    requires Rests(s, t) && l < |s.leases| && s.leases[l].live && bytes <= s.leases[l].bytes
    ensures Leaves(Alone(s, t, Resize(l, bytes, maximum), 5), s, s.counter - s.leases[l].bytes + bytes, s.leases[l := Live(bytes)])
  {
    AtRest(s, t, l);
    Steps(Act(s, Start(t, Resize(l, bytes, maximum))), t);
    hide Inv, Quiet, Charged, Hands, Finish;
    var begun := Act(s, Start(t, Resize(l, bytes, maximum)));
    assert begun.threads == s.threads[t := Lower(l, bytes)] && begun.counter == s.counter;
    var stored := Act(Act(begun, Next(t, false)), Next(t, false));
    assert stored.threads == s.threads;
  }

  lemma ResizeLarger(s: State, t: nat, l: nat, bytes: nat, maximum: nat)
    requires Rests(s, t) && l < |s.leases| && s.leases[l].live && bytes > s.leases[l].bytes
    ensures var had, r := s.leases[l].bytes, Alone(s, t, Resize(l, bytes, maximum), 5);
      if s.counter - had + bytes <= Min(maximum, DEFAULT_LIMIT)
      then Leaves(r, s, s.counter - had + bytes, s.leases[l := Live(bytes)]) else r == s
  {
    AtRest(s, t, l);
    Steps(Act(s, Start(t, Resize(l, bytes, maximum))), t);
    hide Finish, Rests, Begin, Advance;
    GrowSteps(s, t, l, bytes, maximum, s.leases[l].bytes);
    hide Act;
  }

  lemma GrowSteps(s: State, t: nat, l: nat, bytes: nat, maximum: nat, had: nat)
    requires t < |s.threads| && s.threads[t] == Idle && s.threads[t := Idle] == s.threads && l < |s.leases|
    requires s.leases[l] == Live(had) && had <= s.counter <= DEFAULT_LIMIT && bytes > had
    ensures var begun := Act(s, Start(t, Resize(l, bytes, maximum)));
      var handed := Act(Act(Act(begun, Next(t, false)), Next(t, false)), Next(t, false));
      var r := Act(Act(handed, Next(t, false)), Next(t, false));
      if s.counter - had + bytes <= Min(maximum, DEFAULT_LIMIT)
      then Leaves(r, s, s.counter - had + bytes, s.leases[l := Live(bytes)]) else r == s
  {
    var limit := Min(maximum, DEFAULT_LIMIT);
    var begun := Act(s, Start(t, Resize(l, bytes, maximum)));
    var loaded := Act(begun, Next(t, false));
    assert loaded.threads == s.threads[t := Try(bytes - had, limit, s.counter, Grow(l, bytes, had))] && loaded.counter == s.counter;
    var tried := Act(loaded, Next(t, false));
    if s.counter - had + bytes <= limit {
      assert tried.threads == s.threads[t := Won(bytes - had, Grow(l, bytes, had))] && tried.counter == s.counter - had + bytes;
      var handed := Act(tried, Next(t, false));
      assert handed.threads == s.threads[t := HandedOver(bytes - had, l, bytes, had)];
    } else {
      assert tried == s;
    }
  }

  lemma CounterIsKept(s: State, t: nat)
    requires Rests(s, t)
    ensures s.counter == Kept(s.leases) <= DEFAULT_LIMIT
  {
    IdleHandsAreEmpty(s.threads);
    RestingIsKept(s.leases);
  }

  /** Destruction gives everything back. */
  lemma DestroyGivesBack(s: State, t: nat, l: nat)
    requires Rests(s, t) && l < |s.leases| && s.leases[l].live
    ensures Leaves(Alone(s, t, Destroy(l), 1), s, s.counter - s.leases[l].bytes, s.leases[l := Lease(0, 0, None, false)])
  {
    AtRest(s, t, l);
    Steps(Act(s, Start(t, Destroy(l))), t);
    hide Rests, Finish;
  }
}
