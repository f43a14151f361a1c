/** The process-wide accounting of asset memory: one atomic counter and any number of reservations, with every
    load, compare-and-swap, subtraction and field write a step of its own and all threads interleaving freely. */
module MemoryReservation {
  import opened Options

  /** The limit of the whole process, on 64-bit hosts. */
  const DEFAULT_LIMIT: nat := 4 * 1024 * 1024 * 1024
  const TWO_TO_THE_64: nat := 0x1_0000_0000_0000_0000

  /** A reservation object. `bytes` is its field; `charged` is what the counter holds on its account, and `owner`
      is the thread inside an operation on it: the field is not atomic, so there is at most one. */
  datatype Lease = Lease(bytes: nat, charged: nat, owner: Option<nat>, live: bool)

  /** What a reservation of more bytes is for. */
  datatype Goal = Construct | Grow(lease: nat, target: nat, was: nat)

  /** Where a thread is between two steps. */
  datatype Place =
    | Idle
    | Load(bytes: nat, limit: nat, goal: Goal)
    | Try(bytes: nat, limit: nat, used: nat, goal: Goal)
    | Won(bytes: nat, goal: Goal)
    | HandedOver(bytes: nat, lease: nat, target: nat, was: nat)
    | Dropping(local: nat)
    | Lower(lease: nat, target: nat)
    | Store(lease: nat, target: nat)
    | Free(lease: nat)
    | Take(source: nat)
    | Fill(carried: nat)
    | Vacate(into: nat, source: nat)
    | Exchange(into: nat, source: nat)
    | Receive(into: nat, carried: nat)

  datatype Operation =
    | Empty
    | Reserve(bytes: nat, maximum: nat)
    | Shrink(lease: nat, bytes: nat)
    | Resize(lease: nat, bytes: nat, maximum: nat)
    | MoveNew(source: nat)
    | MoveInto(into: nat, source: nat)
    | Destroy(lease: nat)

  datatype State = State(counter: nat, leases: seq<Lease>, threads: seq<Place>)

  function Min(a: nat, b: nat): nat { if a < b then a else b }

  // ---------------------------------------------------------------- 64-bit arithmetic of the counter

  function Plus(a: nat, b: nat): nat { (a + b) % TWO_TO_THE_64 }

  function Minus(a: nat, b: nat): nat { if b <= a then a - b else (a - b) % TWO_TO_THE_64 }

  // ---------------------------------------------------------------- steps

  predicate Available(leases: seq<Lease>, l: nat) { l < |leases| && leases[l].live && leases[l].owner == None }

  function Claim(leases: seq<Lease>, l: nat, t: nat): seq<Lease>
    requires l < |leases|
  {
    leases[l := leases[l].(owner := Some(t))]
  }

  function Begin(s: State, t: nat, op: Operation): State
    requires t < |s.threads|
  {
    if s.threads[t] != Idle then s
    else
      match op
      case Empty => s.(leases := s.leases + [Lease(0, 0, None, true)])
      case Reserve(bytes, maximum) => s.(threads := s.threads[t := Load(bytes, Min(maximum, DEFAULT_LIMIT), Construct)])
      case Shrink(l, bytes) =>
        if Available(s.leases, l) && bytes <= s.leases[l].bytes then
          s.(leases := Claim(s.leases, l, t), threads := s.threads[t := Lower(l, bytes)])
        else s
      case Resize(l, bytes, maximum) =>
        if !Available(s.leases, l) then s
        else if bytes <= s.leases[l].bytes then
          s.(leases := Claim(s.leases, l, t), threads := s.threads[t := Lower(l, bytes)])
        else
          var was := s.leases[l].bytes;
          s.(leases := Claim(s.leases, l, t),
             threads := s.threads[t := Load(bytes - was, Min(maximum, DEFAULT_LIMIT), Grow(l, bytes, was))])
      case MoveNew(source) =>
        if !Available(s.leases, source) then s
        else s.(leases := Claim(s.leases, source, t), threads := s.threads[t := Take(source)])
      case MoveInto(into, source) =>
        if !Available(s.leases, into) || !Available(s.leases, source) || into == source then s
        else s.(leases := Claim(Claim(s.leases, into, t), source, t), threads := s.threads[t := Vacate(into, source)])
      case Destroy(l) =>
        if !Available(s.leases, l) then s
        else s.(leases := Claim(s.leases, l, t), threads := s.threads[t := Free(l)])
  }

  /** The leases a place refers to exist. */
  predicate InBounds(p: Place, n: nat) {
    match p
    case Load(_, _, goal) => goal.Grow? ==> goal.lease < n
    case Try(_, _, _, goal) => goal.Grow? ==> goal.lease < n
    case Won(_, goal) => goal.Grow? ==> goal.lease < n
    case HandedOver(_, l, _, _) => l < n
    case Lower(l, _) => l < n
    case Store(l, _) => l < n
    case Free(l) => l < n
    case Take(source) => source < n
    case Vacate(into, source) => into < n && source < n
    case Exchange(into, source) => into < n && source < n
    case Receive(into, _) => into < n
    case _ => true
  }

  /** A refused reservation throws: a growing lease is let go as it was. */
  function Refuse(leases: seq<Lease>, goal: Goal): seq<Lease>
    requires goal.Grow? ==> goal.lease < |leases|
  {
    if goal.Grow? then leases[goal.lease := leases[goal.lease].(owner := None)] else leases
  }

  predicate Refused(p: Place) { p.Try? && (p.bytes > p.limit || p.used > p.limit - p.bytes) }

  function Advance(s: State, t: nat, spurious: bool): State
    requires t < |s.threads| && InBounds(s.threads[t], |s.leases|)
  {
    var leases := s.leases;
    match s.threads[t]
    case Idle => s
    case Load(bytes, limit, goal) => s.(threads := s.threads[t := Try(bytes, limit, s.counter, goal)])
    case Try(bytes, limit, used, goal) =>
      if Refused(s.threads[t]) then
        s.(leases := Refuse(leases, goal), threads := s.threads[t := Idle])
      else if s.counter == used && !spurious then
        s.(counter := Plus(used, bytes), threads := s.threads[t := Won(bytes, goal)])
      else s.(threads := s.threads[t := Try(bytes, limit, s.counter, goal)])
    case Won(bytes, goal) => (
      match goal
      case Construct => s.(leases := leases + [Lease(bytes, bytes, None, true)], threads := s.threads[t := Idle])
      case Grow(l, target, was) => s.(threads := s.threads[t := HandedOver(bytes, l, target, was)]))
    case HandedOver(bytes, l, target, _) =>
      s.(leases := leases[l := Lease(target, leases[l].charged + bytes, None, true)], threads := s.threads[t := Dropping(0)])
    case Dropping(local) => s.(counter := Minus(s.counter, local), threads := s.threads[t := Idle])
    case Lower(l, target) =>
      s.(counter := Minus(s.counter, if target <= leases[l].bytes then leases[l].bytes - target else 0),
         leases := leases[l := leases[l].(charged := target)], threads := s.threads[t := Store(l, target)])
    case Store(l, target) =>
      s.(leases := leases[l := leases[l].(bytes := target, owner := None)], threads := s.threads[t := Idle])
    case Free(l) =>
      s.(counter := Minus(s.counter, leases[l].bytes), leases := leases[l := Lease(0, 0, None, false)],
         threads := s.threads[t := Idle])
    case Take(source) =>
      s.(leases := leases[source := Lease(0, 0, None, true)], threads := s.threads[t := Fill(leases[source].bytes)])
    case Fill(carried) => s.(leases := leases + [Lease(carried, carried, None, true)], threads := s.threads[t := Idle])
    case Vacate(into, source) =>
      s.(counter := Minus(s.counter, leases[into].bytes), leases := leases[into := leases[into].(charged := 0)],
         threads := s.threads[t := Exchange(into, source)])
    case Exchange(into, source) =>
      s.(leases := leases[source := Lease(0, 0, None, true)], threads := s.threads[t := Receive(into, leases[source].bytes)])
    case Receive(into, carried) =>
      s.(leases := leases[into := Lease(carried, carried, None, true)], threads := s.threads[t := Idle])
  }

  // ---------------------------------------------------------------- what is charged

  function Charged(leases: seq<Lease>): nat {
    if leases == [] then 0 else Charged(leases[..|leases| - 1]) + leases[|leases| - 1].charged
  }

  function Kept(leases: seq<Lease>): nat {
    if leases == [] then 0 else Kept(leases[..|leases| - 1]) + leases[|leases| - 1].bytes
  }

  /** Bytes the counter holds for a thread between two steps rather than for a lease. */
  function InHand(p: Place): nat {
    match p
    case Won(bytes, _) => bytes
    case HandedOver(bytes, _, _, _) => bytes
    case Dropping(local) => local
    case Fill(carried) => carried
    case Receive(_, carried) => carried
    case _ => 0
  }

  function Hands(threads: seq<Place>): nat {
    if threads == [] then 0 else Hands(threads[..|threads| - 1]) + InHand(threads[|threads| - 1])
  }

  lemma {:induction false} ChargedUpdate(leases: seq<Lease>, l: nat, x: Lease)
    requires l < |leases|
    ensures Charged(leases[l := x]) == Charged(leases) - leases[l].charged + x.charged
    ensures leases[l].charged <= Charged(leases)
  {
    var n := |leases| - 1;
    if l < n {
      ChargedUpdate(leases[..n], l, x);
      assert leases[l := x][..n] == leases[..n][l := x];
    } else {
      assert leases[l := x][..n] == leases[..n];
    }
  }

  lemma ChargedSnoc(leases: seq<Lease>, x: Lease)
    ensures Charged(leases + [x]) == Charged(leases) + x.charged
  {
    assert (leases + [x])[..|leases|] == leases;
  }

  lemma {:induction false} HandsUpdate(threads: seq<Place>, t: nat, p: Place)
    requires t < |threads|
    ensures Hands(threads[t := p]) == Hands(threads) - InHand(threads[t]) + InHand(p)
    ensures InHand(threads[t]) <= Hands(threads)
  {
    hide InHand;
    var n := |threads| - 1;
    if t < n {
      HandsUpdate(threads[..n], t, p);
      assert threads[t := p][..n] == threads[..n][t := p];
    } else {
      assert threads[t := p][..n] == threads[..n];
    }
  }

  // ---------------------------------------------------------------- the invariant

  predicate Owned(leases: seq<Lease>, l: nat, t: nat) { l < |leases| && leases[l].owner == Some(t) && leases[l].live }

  predicate Untouched(leases: seq<Lease>, l: nat, t: nat) { Owned(leases, l, t) && leases[l].charged == leases[l].bytes }

  predicate GoalHolds(leases: seq<Lease>, goal: Goal, bytes: nat, t: nat) {
    goal.Grow? ==> Untouched(leases, goal.lease, t) && leases[goal.lease].bytes == goal.was && goal.was + bytes == goal.target
  }

  /** What a thread in the middle of an operation knows about the leases it is working on. */
  predicate PlaceHolds(leases: seq<Lease>, p: Place, t: nat, limit: nat) {
    match p
    case Idle => true
    case Load(bytes, mine, goal) => mine <= limit && GoalHolds(leases, goal, bytes, t)
    case Try(bytes, mine, _, goal) => mine <= limit && GoalHolds(leases, goal, bytes, t)
    case Won(bytes, goal) => GoalHolds(leases, goal, bytes, t)
    case HandedOver(bytes, l, target, was) => GoalHolds(leases, Grow(l, target, was), bytes, t)
    case Dropping(local) => local == 0
    case Lower(l, target) => Untouched(leases, l, t) && target <= leases[l].bytes
    case Store(l, target) => Owned(leases, l, t) && leases[l].charged == target
    case Free(l) => Untouched(leases, l, t)
    case Take(source) => Untouched(leases, source, t)
    case Fill(_) => true
    case Vacate(into, source) => into != source && Untouched(leases, into, t) && Untouched(leases, source, t)
    case Exchange(into, source) =>
      into != source && Owned(leases, into, t) && leases[into].charged == 0 && Untouched(leases, source, t)
    case Receive(into, _) => Owned(leases, into, t) && leases[into].charged == 0
  }

  predicate Resting(lease: Lease) { lease.owner == None ==> lease.charged == lease.bytes && (lease.live || lease.bytes == 0) }

  ghost predicate AllRest(leases: seq<Lease>) { forall l | 0 <= l < |leases| :: Resting(leases[l]) }

  ghost predicate PlacesHold(leases: seq<Lease>, threads: seq<Place>, limit: nat) {
    forall t | 0 <= t < |threads| :: PlaceHolds(leases, threads[t], t, limit)
  }

  ghost predicate Inv(s: State, limit: nat) {
    && limit <= DEFAULT_LIMIT
    && s.counter == Charged(s.leases) + Hands(s.threads) && s.counter <= limit
    && AllRest(s.leases) && PlacesHold(s.leases, s.threads, limit)
  }

  /** Only leases of `t`, or free ones, may differ. */
  ghost predicate OnlyMine(leases: seq<Lease>, after: seq<Lease>, t: nat) {
    && |leases| <= |after|
    && forall l | 0 <= l < |leases| :: leases[l].owner.Some? && leases[l].owner != Some(t) ==> after[l] == leases[l]
  }

  lemma OthersHold(leases: seq<Lease>, after: seq<Lease>, threads: seq<Place>, t: nat, p: Place, limit: nat)
    requires PlacesHold(leases, threads, limit) && OnlyMine(leases, after, t)
    requires t < |threads| && PlaceHolds(after, p, t, limit)
    ensures PlacesHold(after, threads[t := p], limit)
  {
    forall u | 0 <= u < |threads| && u != t ensures PlaceHolds(after, threads[u], u, limit) {
      assert PlaceHolds(leases, threads[u], u, limit);
    }
  }

  /** A step that only moves a thread and keeps the books balanced keeps the invariant. */
  lemma StepHolds(s: State, t: nat, counter: nat, leases: seq<Lease>, p: Place, limit: nat)
    requires Inv(s, limit) && t < |s.threads|
    requires OnlyMine(s.leases, leases, t) && AllRest(leases) && PlaceHolds(leases, p, t, limit)
    requires counter + Charged(s.leases) + InHand(s.threads[t]) == s.counter + Charged(leases) + InHand(p)
    requires counter <= limit
    ensures Inv(State(counter, leases, s.threads[t := p]), limit)
  {
    hide PlaceHolds, InHand, Charged;
    HandsUpdate(s.threads, t, p);
    OthersHold(s.leases, leases, s.threads, t, p, limit);
  }

  /** A step that rewrites one lease, free or its own. */
  lemma LeaseStepHolds(s: State, t: nat, counter: int, l: nat, x: Lease, p: Place, limit: nat)
    requires Inv(s, limit) && t < |s.threads| && l < |s.leases|
    requires s.leases[l].owner == None || s.leases[l].owner == Some(t)
    requires Resting(x) && PlaceHolds(s.leases[l := x], p, t, limit)
    requires counter == s.counter - s.leases[l].charged + x.charged - InHand(s.threads[t]) + InHand(p)
    requires counter <= limit
    ensures counter >= 0 && Inv(State(counter, s.leases[l := x], s.threads[t := p]), limit)
  {
    hide PlaceHolds, InHand, Charged, Hands;
    ChargedUpdate(s.leases, l, x);
    HandsUpdate(s.threads, t, p);
    StepHolds(s, t, counter, s.leases[l := x], p, limit);
  }

  /** The limit a request works under is part of the operation. */
  predicate Within(op: Operation, limit: nat) {
    match op
    case Reserve(_, maximum) => Min(maximum, DEFAULT_LIMIT) <= limit
    case Resize(_, _, maximum) => Min(maximum, DEFAULT_LIMIT) <= limit
    case _ => true
  }

  lemma ClaimOne(s: State, t: nat, l: nat, p: Place, limit: nat)
    requires Inv(s, limit) && t < |s.threads| && s.threads[t] == Idle && Available(s.leases, l)
    requires InHand(p) == 0 && PlaceHolds(Claim(s.leases, l, t), p, t, limit)
    ensures Inv(State(s.counter, Claim(s.leases, l, t), s.threads[t := p]), limit)
  {
    hide PlaceHolds, Charged, Hands;
    LeaseStepHolds(s, t, s.counter, l, s.leases[l].(owner := Some(t)), p, limit);
  }

  lemma ClaimTwo(s: State, t: nat, into: nat, source: nat, limit: nat)
    requires Inv(s, limit) && t < |s.threads| && s.threads[t] == Idle
    requires Available(s.leases, into) && Available(s.leases, source) && into != source
    ensures Inv(Begin(s, t, MoveInto(into, source)), limit)
  {
    hide Charged, Hands;
    var one := State(s.counter, Claim(s.leases, into, t), s.threads[t := Idle]);
    ClaimOne(s, t, into, Idle, limit);
    assert one.threads == s.threads;
    assert Resting(s.leases[into]);
    LeaseStepHolds(one, t, s.counter, source, one.leases[source].(owner := Some(t)), Vacate(into, source), limit);
  }

  lemma BeginHolds(s: State, t: nat, op: Operation, limit: nat)
    requires Inv(s, limit) && t < |s.threads| && Within(op, limit)
    ensures Inv(Begin(s, t, op), limit) && |Begin(s, t, op).threads| == |s.threads|
  {
    hide Charged, Hands, PlacesHold;
    if s.threads[t] == Idle && Begin(s, t, op) != s {
      var p := Begin(s, t, op).threads[t];
      match op
      case Empty =>
        ChargedSnoc(s.leases, Lease(0, 0, None, true));
        StepHolds(s, t, s.counter, s.leases + [Lease(0, 0, None, true)], Idle, limit);
        assert s.threads[t := Idle] == s.threads;
      case Reserve(_, _) => StepHolds(s, t, s.counter, s.leases, p, limit);
      case Shrink(l, _) => ClaimOne(s, t, l, p, limit);
      case Resize(l, _, _) => ClaimOne(s, t, l, p, limit);
      case MoveNew(l) => ClaimOne(s, t, l, p, limit);
      case Destroy(l) => ClaimOne(s, t, l, p, limit);
      case MoveInto(into, source) => ClaimTwo(s, t, into, source, limit);
    }
  }

  lemma PlaceInBounds(s: State, t: nat, limit: nat)
    requires Inv(s, limit) && t < |s.threads|
    ensures PlaceHolds(s.leases, s.threads[t], t, limit) && InBounds(s.threads[t], |s.leases|)
  {
    assert PlaceHolds(s.leases, s.threads[t], t, limit);
  }

  /** No subtraction can take more than the counter holds on the lease's account. */
  lemma ChargeIsCounted(s: State, l: nat, limit: nat)
    requires Inv(s, limit) && l < |s.leases|
    ensures s.leases[l].charged <= s.counter
  {
    ChargedUpdate(s.leases, l, s.leases[l]);
  }

  lemma ReserveStepHolds(s: State, t: nat, spurious: bool, limit: nat)
    requires Inv(s, limit) && t < |s.threads| && InBounds(s.threads[t], |s.leases|)
    requires s.threads[t].Load? || s.threads[t].Try?
    ensures Inv(Advance(s, t, spurious), limit)
  {
    hide Charged, Hands, PlacesHold, AllRest;
    var p := s.threads[t];
    PlaceInBounds(s, t, limit);
    if Refused(p) && p.goal.Grow? {
      var l := p.goal.lease;
      LeaseStepHolds(s, t, s.counter, l, s.leases[l].(owner := None), Idle, limit);
    } else {
      var r := Advance(s, t, spurious);
      StepHolds(s, t, r.counter, s.leases, r.threads[t], limit);
    }
  }

  lemma SettleStepHolds(s: State, t: nat, limit: nat)
    requires Inv(s, limit) && t < |s.threads| && InBounds(s.threads[t], |s.leases|)
    requires s.threads[t].Won? || s.threads[t].HandedOver? || s.threads[t].Dropping? || s.threads[t].Fill? || s.threads[t].Idle?
    ensures Inv(Advance(s, t, false), limit)
  {
    hide Charged, Hands, PlacesHold;
    PlaceInBounds(s, t, limit);
    match s.threads[t]
    case Won(bytes, goal) =>
      if goal.Construct? {
        ChargedSnoc(s.leases, Lease(bytes, bytes, None, true));
        StepHolds(s, t, s.counter, s.leases + [Lease(bytes, bytes, None, true)], Idle, limit);
      } else {
        StepHolds(s, t, s.counter, s.leases, HandedOver(bytes, goal.lease, goal.target, goal.was), limit);
      }
    case HandedOver(bytes, l, target, _) =>
      LeaseStepHolds(s, t, s.counter, l, Lease(target, s.leases[l].charged + bytes, None, true), Dropping(0), limit);
    case Dropping(_) => StepHolds(s, t, s.counter, s.leases, Idle, limit);
    case Fill(carried) =>
      ChargedSnoc(s.leases, Lease(carried, carried, None, true));
      StepHolds(s, t, s.counter, s.leases + [Lease(carried, carried, None, true)], Idle, limit);
    case Idle =>
  }

  lemma LowerStepHolds(s: State, t: nat, limit: nat)
    requires Inv(s, limit) && t < |s.threads| && InBounds(s.threads[t], |s.leases|)
    requires s.threads[t].Lower? || s.threads[t].Store? || s.threads[t].Free?
    ensures Inv(Advance(s, t, false), limit)
  {
    hide Charged, Hands, PlacesHold, AllRest;
    var p := s.threads[t];
    PlaceInBounds(s, t, limit);
    ChargeIsCounted(s, p.lease, limit);
    var r := Advance(s, t, false);
    LeaseStepHolds(s, t, r.counter, p.lease, r.leases[p.lease], r.threads[t], limit);
  }

  lemma MoveStepHolds(s: State, t: nat, limit: nat)
    requires Inv(s, limit) && t < |s.threads| && InBounds(s.threads[t], |s.leases|)
    requires s.threads[t].Take? || s.threads[t].Vacate? || s.threads[t].Exchange? || s.threads[t].Receive?
    ensures Inv(Advance(s, t, false), limit)
  {
    hide Charged, Hands, PlacesHold, AllRest;
    var p := s.threads[t];
    PlaceInBounds(s, t, limit);
    var l := if p.Take? || p.Exchange? then p.source else p.into;
    ChargeIsCounted(s, l, limit);
    var r := Advance(s, t, false);
    LeaseStepHolds(s, t, r.counter, l, r.leases[l], r.threads[t], limit);
  }

  lemma AdvanceHolds(s: State, t: nat, spurious: bool, limit: nat)
    requires Inv(s, limit) && t < |s.threads|
    ensures InBounds(s.threads[t], |s.leases|)
    ensures Inv(Advance(s, t, spurious), limit) && |Advance(s, t, spurious).threads| == |s.threads|
  {
    PlaceInBounds(s, t, limit);
    hide PlaceHolds, Charged, Hands, PlacesHold, AllRest;
    match s.threads[t]
    case Load(_, _, _) => ReserveStepHolds(s, t, spurious, limit);
    case Try(_, _, _, _) => ReserveStepHolds(s, t, spurious, limit);
    case Won(_, _) => SettleStepHolds(s, t, limit);
    case HandedOver(_, _, _, _) => SettleStepHolds(s, t, limit);
    case Dropping(_) => SettleStepHolds(s, t, limit);
    case Fill(_) => SettleStepHolds(s, t, limit);
    case Idle =>
    case Lower(_, _) => LowerStepHolds(s, t, limit);
    case Store(_, _) => LowerStepHolds(s, t, limit);
    case Free(_) => LowerStepHolds(s, t, limit);
    case Take(_) => MoveStepHolds(s, t, limit);
    case Vacate(_, _) => MoveStepHolds(s, t, limit);
    case Exchange(_, _) => MoveStepHolds(s, t, limit);
    case Receive(_, _) => MoveStepHolds(s, t, limit);
  }

  // ---------------------------------------------------------------- runs

  /** One scheduling decision: a thread starts an operation or takes its next step. */
  datatype Action = Start(thread: nat, op: Operation) | Next(thread: nat, spurious: bool)

  function Act(s: State, a: Action): State {
    if a.thread >= |s.threads| then s
    else
      match a
      case Start(t, op) => Begin(s, t, op)
      case Next(t, spurious) => if InBounds(s.threads[t], |s.leases|) then Advance(s, t, spurious) else s
  }

  function Run(threads: nat, actions: seq<Action>): (s: State)
    ensures |s.threads| == threads
  {
    if actions == [] then State(0, [], seq(threads, _ => Idle))
    else Act(Run(threads, actions[..|actions| - 1]), actions[|actions| - 1])
  }

  predicate AllWithin(actions: seq<Action>, limit: nat) {
    forall i | 0 <= i < |actions| :: actions[i].Start? ==> Within(actions[i].op, limit)
  }

  lemma {:induction false} IdleHandsAreEmpty(threads: seq<Place>)
    requires forall t | 0 <= t < |threads| :: threads[t] == Idle
    ensures Hands(threads) == 0
  {
    if threads != [] {
      IdleHandsAreEmpty(threads[..|threads| - 1]);
    }
  }

  /** Whatever the interleaving: the counter is exactly what the leases and the operations in flight account for,
      and it never exceeds the limit that every request works under. */
  lemma {:induction false} EveryInterleaving(threads: nat, actions: seq<Action>, limit: nat)
    requires limit <= DEFAULT_LIMIT && AllWithin(actions, limit)
    ensures Inv(Run(threads, actions), limit) && |Run(threads, actions).threads| == threads
  {
    hide Charged, PlaceHolds, Begin, Advance, Hands;
    if actions == [] {
      var s := Run(threads, actions);
      IdleHandsAreEmpty(s.threads);
      NothingCharged();
      forall t | 0 <= t < threads ensures PlaceHolds(s.leases, s.threads[t], t, limit) {
        IdleHolds(s.leases, t, limit);
      }
    } else {
      var front, a := actions[..|actions| - 1], actions[|actions| - 1];
      EveryInterleaving(threads, front, limit);
      var s := Run(threads, front);
      if a.thread < threads {
        if a.Start? {
          BeginHolds(s, a.thread, a.op, limit);
        } else {
          AdvanceHolds(s, a.thread, a.spurious, limit);
        }
      }
    }
  }

  lemma NothingCharged()
    ensures Charged([]) == 0
  {
  }

  lemma IdleHolds(leases: seq<Lease>, t: nat, limit: nat)
    ensures PlaceHolds(leases, Idle, t, limit)
  {
  }

  /** What the next step of a thread takes off the counter. */
  function Subtracted(s: State, t: nat): nat
    requires t < |s.threads| && InBounds(s.threads[t], |s.leases|)
  {
    match s.threads[t]
    case Dropping(local) => local
    case Lower(l, target) => if target <= s.leases[l].bytes then s.leases[l].bytes - target else 0
    case Free(l) => s.leases[l].bytes
    case Vacate(into, _) => s.leases[into].bytes
    case _ => 0
  }

  /** No thread is ever about to subtract more than the counter holds, so the unsigned counter never wraps. */
  lemma NeverUnderflows(threads: nat, actions: seq<Action>, t: nat)
    requires AllWithin(actions, DEFAULT_LIMIT) && t < threads
    ensures var s := Run(threads, actions);
      InBounds(s.threads[t], |s.leases|) && Subtracted(s, t) <= s.counter < TWO_TO_THE_64
  {
    hide Run, Hands, Charged;
    var s := Run(threads, actions);
    EveryInterleaving(threads, actions, DEFAULT_LIMIT);
    PlaceInBounds(s, t, DEFAULT_LIMIT);
    match s.threads[t]
    case Lower(l, _) => ChargeIsCounted(s, l, DEFAULT_LIMIT);
    case Free(l) => ChargeIsCounted(s, l, DEFAULT_LIMIT);
    case Vacate(into, _) => ChargeIsCounted(s, into, DEFAULT_LIMIT);
    case _ =>
  }

  /** No operation is in flight on any lease. */
  predicate Quiet(s: State) {
    (forall t | 0 <= t < |s.threads| :: s.threads[t] == Idle) && forall l | 0 <= l < |s.leases| :: s.leases[l].owner == None
  }

  lemma {:induction false} RestingIsKept(leases: seq<Lease>)
    requires AllRest(leases) && forall l | 0 <= l < |leases| :: leases[l].owner == None
    ensures Charged(leases) == Kept(leases)
  {
    if leases != [] {
      RestingIsKept(leases[..|leases| - 1]);
      assert Resting(leases[|leases| - 1]);
    }
  }

  /** At rest the counter is the sum of the live reservations' own sizes, and within every request's limit. */
  lemma QuietCounter(threads: nat, actions: seq<Action>, limit: nat)
    requires limit <= DEFAULT_LIMIT && AllWithin(actions, limit) && Quiet(Run(threads, actions))
    ensures Run(threads, actions).counter == Kept(Run(threads, actions).leases) <= limit
  {
    hide Run, PlaceHolds;
    var s := Run(threads, actions);
    EveryInterleaving(threads, actions, limit);
    IdleHandsAreEmpty(s.threads);
    RestingIsKept(s.leases);
  }

  /** A growth refused at any point of any run leaves its reservation as it was when the growth began. */
  lemma RefusedGrowthKeepsLease(threads: nat, actions: seq<Action>, t: nat, spurious: bool)
    requires AllWithin(actions, DEFAULT_LIMIT) && t < threads
    requires Refused(Run(threads, actions).threads[t]) && Run(threads, actions).threads[t].goal.Grow?
    ensures var s, goal := Run(threads, actions), Run(threads, actions).threads[t].goal;
      && goal.lease < |s.leases| && s.leases[goal.lease].bytes == goal.was
      && Act(s, Next(t, spurious)).counter == s.counter
      && Act(s, Next(t, spurious)).leases == s.leases[goal.lease := Lease(goal.was, goal.was, None, true)]
  {
    hide Run, Hands, Charged;
    EveryInterleaving(threads, actions, DEFAULT_LIMIT);
    PlaceInBounds(Run(threads, actions), t, DEFAULT_LIMIT);
  }

  /** With nobody else at work, a reservation of `bytes` is granted exactly when they fit beside the live ones. */
  lemma GrantedIffFits(threads: nat, actions: seq<Action>, t: nat, bytes: nat, maximum: nat)
    requires AllWithin(actions, DEFAULT_LIMIT) && t < threads && Quiet(Run(threads, actions))
    ensures var s := Run(threads, actions);
      var tried := Act(Act(Act(s, Start(t, Reserve(bytes, maximum))), Next(t, false)), Next(t, false));
      var done := Act(tried, Next(t, false));
      if Kept(s.leases) + bytes <= Min(maximum, DEFAULT_LIMIT) then
        done.leases == s.leases + [Lease(bytes, bytes, None, true)] && done.counter == s.counter + bytes && done.threads == s.threads
      else tried == s
  {
    hide Run, Hands, Charged, PlaceHolds;
    var s := Run(threads, actions);
    EveryInterleaving(threads, actions, DEFAULT_LIMIT);
    QuietCounter(threads, actions, DEFAULT_LIMIT);
    assert s.threads[t := Idle] == s.threads;
  }
}
