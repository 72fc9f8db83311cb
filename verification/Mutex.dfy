/** The promise-chain mutex: a call waits for the tail that its key had when it
    arrived, and its own tail becomes the key's. Every schedule is a sequence of the
    four steps below; a body that throws ends like one that returns. */
module Mutex {
  datatype Phase = Waiting | Running | Done

  /** A call of the mutex. Its tail settles some time after the call is done. */
  datatype Call<Key> = Call(key: Key, previous: int, phase: Phase, settled: bool)

  const NOBODY := -1

  datatype State<Key(==)> = State(calls: seq<Call<Key>>, locks: map<Key, nat>)

  datatype Step<Key> = Arrive(key: Key) | Enter(i: nat) | Exit(i: nat) | Settle(i: nat)

  function Initial<Key>(): State<Key> {
    State([], map[])
  }

  predicate TailSettled<Key(==)>(s: State<Key>, previous: int) {
    previous == NOBODY || (0 <= previous < |s.calls| && s.calls[previous].settled)
  }

  predicate Enabled<Key(==)>(s: State<Key>, step: Step<Key>) {
    match step
    case Arrive(_) => true
    case Enter(i) => i < |s.calls| && s.calls[i].phase.Waiting? && TailSettled(s, s.calls[i].previous)
    case Exit(i) => i < |s.calls| && s.calls[i].phase.Running?
    case Settle(i) => i < |s.calls| && s.calls[i].phase.Done? && TailSettled(s, s.calls[i].previous)
  }

  function Next<Key(==)>(s: State<Key>, step: Step<Key>): State<Key>
    requires Enabled(s, step)
  {
    match step
    case Arrive(key) =>
      var previous := if key in s.locks then s.locks[key] as int else NOBODY;
      State(s.calls + [Call(key, previous, Waiting, false)], s.locks[key := |s.calls|])
    case Enter(i) => s.(calls := s.calls[i := s.calls[i].(phase := Running)])
    case Exit(i) =>
      var key := s.calls[i].key;
      State(s.calls[i := s.calls[i].(phase := Done)],
            if key in s.locks && s.locks[key] == i then s.locks - {key} else s.locks)
    case Settle(i) => s.(calls := s.calls[i := s.calls[i].(settled := true)])
  }

  /** A schedule: steps that cannot be taken are skipped. */
  function Run<Key(==)>(s: State<Key>, steps: seq<Step<Key>>): State<Key>
    decreases |steps|
  {
    if steps == [] then s
    else
      var t := Run(s, steps[..|steps| - 1]);
      if Enabled(t, steps[|steps| - 1]) then Next(t, steps[|steps| - 1]) else t
  }

  // ------------------------------------------------------------------ invariants

  /** Everyone with this key who arrived before is done. */
  predicate EarlierDone<Key(==)>(calls: seq<Call<Key>>, j: nat)
    requires j < |calls|
  {
    forall i :: 0 <= i < j && calls[i].key == calls[j].key ==> calls[i].phase.Done?
  }

  /** A call waits for the last arrival before it with its key, unless all were done. */
  predicate Chained<Key(==)>(calls: seq<Call<Key>>, j: nat)
    requires j < |calls|
  {
    var p := calls[j].previous;
    if p == NOBODY then EarlierDone(calls, j)
    else
      && 0 <= p < j && calls[p].key == calls[j].key
      && forall i :: p < i < j ==> calls[i].key != calls[j].key
  }

  predicate InOrder<Key(==)>(calls: seq<Call<Key>>, j: nat)
    requires j < |calls|
  {
    && (!calls[j].phase.Waiting? ==> EarlierDone(calls, j))
    && (calls[j].settled ==> calls[j].phase.Done?)
  }

  /** A key's entry names the last arrival with that key; a key without one has
      nobody left. */
  predicate LocksFit<Key(==)>(s: State<Key>) {
    && (forall key :: key in s.locks ==> s.locks[key] < |s.calls| && s.calls[s.locks[key]].key == key)
    && (forall i :: 0 <= i < |s.calls| && s.calls[i].key in s.locks ==> i <= s.locks[s.calls[i].key])
    && (forall i :: 0 <= i < |s.calls| && s.calls[i].key !in s.locks ==> s.calls[i].phase.Done?)
  }

  predicate Orderly<Key(==)>(s: State<Key>) {
    && (forall j {:trigger Chained(s.calls, j)} :: 0 <= j < |s.calls| ==> Chained(s.calls, j))
    && (forall j {:trigger InOrder(s.calls, j)} :: 0 <= j < |s.calls| ==> InOrder(s.calls, j))
    && LocksFit(s)
  }

  /** Whoever may enter finds everyone before it done. */
  lemma EntryInOrder<Key>(s: State<Key>, j: nat)
    requires Orderly(s) && j < |s.calls| && TailSettled(s, s.calls[j].previous)
    ensures EarlierDone(s.calls, j)
  {
    assert Chained(s.calls, j);
    var p := s.calls[j].previous;
    if p != NOBODY {
      assert InOrder(s.calls, p);
    }
  }

  lemma ArriveKeeps<Key>(s: State<Key>, key: Key)
    requires Orderly(s)
    ensures Orderly(Next(s, Arrive(key)))
  {
    var t := Next(s, Arrive(key));
    var n := |s.calls|;
    forall j | 0 <= j < n + 1 ensures Chained(t.calls, j) && InOrder(t.calls, j) {
      if j < n {
        assert Chained(s.calls, j) && InOrder(s.calls, j);
      }
    }
  }

  /** A call that only moves forward keeps the chains and the order of the others. */
  lemma ForwardKeeps<Key>(s: State<Key>, i: nat, c: Call<Key>)
    requires Orderly(s) && i < |s.calls| && c.key == s.calls[i].key && c.previous == s.calls[i].previous
    requires s.calls[i].phase.Done? ==> c.phase.Done?
    requires !c.phase.Waiting? ==> EarlierDone(s.calls, i)
    requires c.settled ==> c.phase.Done?
    ensures var calls := s.calls[i := c];
            forall j :: 0 <= j < |s.calls| ==> Chained(calls, j) && InOrder(calls, j)
  {
    var calls := s.calls[i := c];
    forall j | 0 <= j < |s.calls| ensures Chained(calls, j) && InOrder(calls, j) {
      assert Chained(s.calls, j) && InOrder(s.calls, j);
    }
  }

  /** Every step of every schedule keeps the chains in order. */
  lemma NextKeeps<Key>(s: State<Key>, step: Step<Key>)
    requires Orderly(s) && Enabled(s, step)
    ensures Orderly(Next(s, step))
  {
    match step
    case Arrive(key) => ArriveKeeps(s, key);
    case Enter(i) =>
      EntryInOrder(s, i);
      assert InOrder(s.calls, i);
      ForwardKeeps(s, i, s.calls[i].(phase := Running));
    case Exit(i) =>
      assert InOrder(s.calls, i);
      ForwardKeeps(s, i, s.calls[i].(phase := Done));
      ExitLocks(s, i);
    case Settle(i) =>
      assert InOrder(s.calls, i);
      ForwardKeeps(s, i, s.calls[i].(settled := true));
  }

  lemma ExitLocks<Key>(s: State<Key>, i: nat)
    requires Orderly(s) && Enabled(s, Exit(i))
    ensures LocksFit(Next(s, Exit(i)))
  {
    assert InOrder(s.calls, i);
    hide Chained;
  }

  lemma {:induction false} RunValid<Key>(steps: seq<Step<Key>>)
    ensures Orderly(Run(Initial(), steps))
    decreases |steps|
  {
    hide Orderly, Next, Enabled;
    if steps == [] {
      assert Orderly(Initial<Key>()) by { InitialValid<Key>(); }
    } else {
      var t := Run(Initial(), steps[..|steps| - 1]);
      RunValid(steps[..|steps| - 1]);
      if Enabled(t, steps[|steps| - 1]) {
        NextKeeps(t, steps[|steps| - 1]);
      }
    }
  }

  lemma InitialValid<Key>()
    ensures Orderly(Initial<Key>())
  {
  }

  // -------------------------------------------------------------------- theorems

  /** In every schedule, at most one body runs for each key. */
  lemma MutualExclusion<Key>(steps: seq<Step<Key>>, i: nat, j: nat)
    requires var s := Run(Initial(), steps);
             && i < |s.calls| && j < |s.calls| && s.calls[i].key == s.calls[j].key
             && s.calls[i].phase.Running? && s.calls[j].phase.Running?
    ensures i == j
  {
    RunValid(steps);
    var s := Run(Initial(), steps);
    assert InOrder(s.calls, i) && InOrder(s.calls, j);
  }

  /** Bodies of one key start in the order of arrival, each after the earlier ended. */
  lemma FirstComeFirstServed<Key>(steps: seq<Step<Key>>, i: nat, j: nat)
    requires var s := Run(Initial(), steps);
             i < j < |s.calls| && s.calls[i].key == s.calls[j].key && !s.calls[j].phase.Waiting?
    ensures Run(Initial(), steps).calls[i].phase.Done?
  {
    RunValid(steps);
    assert InOrder(Run(Initial(), steps).calls, j);
  }

  /** An exit deletes the key's entry exactly when nobody with that key is left. */
  lemma DeletedWhenAlone<Key>(steps: seq<Step<Key>>, i: nat)
    requires Enabled(Run(Initial(), steps), Exit(i))
    ensures var s := Run(Initial(), steps);
            var t := Next(s, Exit(i));
            s.calls[i].key !in t.locks <==>
            forall j :: 0 <= j < |t.calls| && t.calls[j].key == s.calls[i].key ==> t.calls[j].phase.Done?
  {
    RunValid(steps);
    var s := Run(Initial(), steps);
    NextKeeps(s, Exit(i));
    hide Run;
    TailStillWaits(s, i);
  }

  /** The entry that an exit leaves behind is a call that has not started. */
  lemma TailStillWaits<Key>(s: State<Key>, i: nat)
    requires Orderly(s) && Enabled(s, Exit(i))
    ensures var t, key := Next(s, Exit(i)), s.calls[i].key;
            key in s.locks && (key in t.locks ==> t.locks[key] < |t.calls| && t.calls[t.locks[key]].phase.Waiting?)
  {
    var t, key := Next(s, Exit(i)), s.calls[i].key;
    assert key in s.locks;
    if key in t.locks {
      var last := t.locks[key];
      assert InOrder(s.calls, last) && InOrder(s.calls, i) && last > i;
    }
  }

  /** Nobody waits for ever on a schedule's account: as long as a call waits, one of
      its key can move. */
  lemma SomebodyMoves<Key>(steps: seq<Step<Key>>, j: nat) returns (step: Step<Key>)
    requires var s := Run(Initial(), steps);
             j < |s.calls| && s.calls[j].phase.Waiting?
    ensures Enabled(Run(Initial(), steps), step) && Next(Run(Initial(), steps), step) != Run(Initial(), steps)
    ensures !step.Arrive? && step.i <= j
    ensures Run(Initial(), steps).calls[step.i].key == Run(Initial(), steps).calls[j].key
  {
    RunValid(steps);
    hide Orderly;
    step := SomeoneMoves(Run(Initial(), steps), j);
  }

  lemma {:induction false} SomeoneMoves<Key>(s: State<Key>, j: nat) returns (step: Step<Key>)
    requires Orderly(s) && j < |s.calls| && s.calls[j].phase.Waiting?
    ensures Enabled(s, step) && Next(s, step) != s && !step.Arrive? && step.i <= j
    ensures s.calls[step.i].key == s.calls[j].key
    decreases j
  {
    assert Chained(s.calls, j);
    var p := s.calls[j].previous;
    if TailSettled(s, p) {
      step := Enter(j);
    } else {
      assert Chained(s.calls, p) && InOrder(s.calls, p);
      if s.calls[p].phase.Waiting? {
        step := SomeoneMoves(s, p);
      } else if s.calls[p].phase.Running? {
        step := Exit(p);
      } else {
        step := SettleUpTo(s, p);
      }
    }
  }

  lemma {:induction false} SettleUpTo<Key>(s: State<Key>, p: nat) returns (step: Step<Key>)
    requires Orderly(s) && p < |s.calls| && s.calls[p].phase.Done? && !s.calls[p].settled
    ensures Enabled(s, step) && Next(s, step) != s && step.Settle? && step.i <= p
    ensures s.calls[step.i].key == s.calls[p].key
    decreases p
  {
    assert Chained(s.calls, p) && InOrder(s.calls, p);
    var q := s.calls[p].previous;
    if TailSettled(s, q) {
      step := Settle(p);
    } else {
      step := SettleUpTo(s, q);
    }
  }

  /** At most one call of a key runs, and a call that may delete its key's entry does so
      exactly when nobody with the key is left. */
  lemma OneRuns<Key>(s: State<Key>, i: nat)
    requires Orderly(s) && i < |s.calls| && s.calls[i].phase.Running?
    ensures forall j :: 0 <= j < |s.calls| && s.calls[j].key == s.calls[i].key && s.calls[j].phase.Running? ==> i == j
    ensures EarlierDone(s.calls, i)
  {
    assert InOrder(s.calls, i);
    forall j | 0 <= j < |s.calls| && s.calls[j].key == s.calls[i].key && s.calls[j].phase.Running? ensures i == j {
      assert InOrder(s.calls, j);
    }
  }

  ghost predicate Moves<Key>(s: State<Key>, step: Step<Key>, t: State<Key>) {
    Enabled(s, step) && t == Next(s, step)
  }

  // ------------------------------------------------------------- the lock itself

  /** One call in flight: the promise it awaits, and its own promise, settled once the
      call has released it and the awaited one is settled. */
  class Turn<Key> {
    const key: Key
    const previous: Turn?<Key>
    var phase: Phase
    var settled: bool

    constructor (key: Key, previous: Turn?<Key>)
      ensures this.key == key && this.previous == previous && phase == Waiting && !settled
    {
      this.key, this.previous, phase, settled := key, previous, Waiting, false;
    }
  }

  /** The map of tails with the synchronous stretches of a call between its awaits.
      Its turns in order of arrival are remembered by position in the state. */
  class ProjectMutex<Key(==)> {
    var projectLocks: map<Key, Turn<Key>>
    ghost var turns: seq<Turn<Key>>
    ghost var state: State<Key>

    /** The turn at a position is the call that the state has there. */
    ghost predicate Shows(i: nat)
      requires i < |turns| && i < |state.calls|
      reads this, turns[i]
    {
      var c := state.calls[i];
      && c.key == turns[i].key && c.phase == turns[i].phase && c.settled == turns[i].settled
      && (c.previous == NOBODY <==> turns[i].previous == null)
      && (c.previous != NOBODY ==> 0 <= c.previous < |turns| && turns[i].previous == turns[c.previous])
    }

    ghost predicate Valid()
      reads this, turns
    {
      && |turns| == |state.calls|
      && (forall i {:trigger Shows(i)} :: 0 <= i < |turns| ==> Shows(i))
      && (forall i, j :: 0 <= i < j < |turns| ==> turns[i] != turns[j])
      && projectLocks.Keys == state.locks.Keys
      && (forall key :: key in projectLocks ==>
            state.locks[key] < |turns| && projectLocks[key] == turns[state.locks[key]])
      && Orderly(state)
    }

    /** May the turn go on after its await? */
    predicate Ready(turn: Turn<Key>)
      reads turn.previous
    {
      turn.previous == null || turn.previous.settled
    }

    lemma AwaitsWhatItShows(i: nat)
      requires Valid() && i < |turns|
      ensures Ready(turns[i]) == TailSettled(state, state.calls[i].previous)
    {
      assert Shows(i);
      if state.calls[i].previous != NOBODY {
        assert Shows(state.calls[i].previous);
      }
    }

    /** Nobody with a free key is left; the entry of a key in use is one of its turns. */
    lemma FreeWhenDone(key: Key)
      requires Valid()
      ensures key !in projectLocks ==> forall t :: t in turns && t.key == key ==> t.phase.Done?
      ensures key in projectLocks ==>
        projectLocks[key].key == key && projectLocks[key].phase == state.calls[state.locks[key]].phase
    {
      if key in projectLocks {
        assert Shows(state.locks[key]);
      } else {
        forall k | 0 <= k < |turns| && turns[k].key == key ensures turns[k].phase.Done? {
          assert Shows(k);
        }
      }
    }

    /** A key whose entry has not ended is free exactly when nobody with it is left. */
    lemma FreeExactly(key: Key)
      requires Valid()
      requires key in state.locks ==>
        state.locks[key] < |state.calls| && !state.calls[state.locks[key]].phase.Done?
      ensures key !in projectLocks <==> forall t :: t in turns && t.key == key ==> t.phase.Done?
    {
      FreeWhenDone(key);
    }

    constructor ()
      ensures Valid() && turns == [] && state == Initial()
    {
      projectLocks, turns, state := map[], [], Initial();
    }

    /** From the call to its first await: the new turn waits for the key's tail and
        replaces it. It waits for nobody only when everyone with its key is done. */
    method Queue(key: Key) returns (turn: Turn<Key>)
      requires Valid()
      modifies this
      ensures Valid() && fresh(turn) && turns == old(turns) + [turn] && Moves(old(state), Arrive(key), state)
      ensures turn.key == key && turn.phase.Waiting? && (turn.previous == null || turn.previous in old(turns))
      ensures turn.previous == null ==> forall t :: t in old(turns) && t.key == key ==> t.phase.Done?
    {
      hide Orderly;
      FreeWhenDone(key);
      var previous: Turn?<Key> := if key in projectLocks then projectLocks[key] else null;
      turn := new Turn(key, previous);
      projectLocks := projectLocks[key := turn];
      NextKeeps(state, Arrive(key));
      turns, state := turns + [turn], Next(state, Arrive(key));
      forall k | 0 <= k < |turns| ensures Shows(k) {
        assert k < |turns| - 1 ==> old(Shows(k));
      }
    }

    /** The awaited tail has settled and the body starts: it runs alone among its key's
        turns, and everyone with its key who came before is done. */
    method Begin(turn: Turn<Key>, ghost i: nat)
      requires Valid() && i < |turns| && turns[i] == turn && turn.phase.Waiting? && Ready(turn)
      modifies turn`phase, this`state
      ensures Valid() && turn.phase.Running? && Moves(old(state), Enter(i), state)
      ensures forall t :: t in turns && t.key == turn.key && t.phase.Running? ==> t == turn
      ensures forall k :: 0 <= k < i && turns[k].key == turn.key ==> turns[k].phase.Done?
    {
      hide Orderly;
      AwaitsWhatItShows(i);
      assert Shows(i);
      NextKeeps(state, Enter(i));
      turn.phase := Running;
      state := Next(state, Enter(i));
      forall k | 0 <= k < |turns| ensures Shows(k) {
        assert old(Shows(k));
      }
      OneRuns(state, i);
      forall k | 0 <= k < |turns| && turns[k].key == turn.key
        ensures (turns[k].phase.Running? ==> k == i) && (k < i ==> turns[k].phase.Done?)
      {
        assert Shows(k) && Shows(i);
      }
    }

    /** The body returned or threw: release, and drop the entry if it is still one's own.
        The key is free again exactly when nobody with it is left. */
    method Release(turn: Turn<Key>, ghost i: nat)
      requires Valid() && i < |turns| && turns[i] == turn && turn.phase.Running?
      modifies turn`phase, this`projectLocks, this`state
      ensures Valid() && turn.phase.Done? && Moves(old(state), Exit(i), state)
      ensures turn.key !in projectLocks <==> forall t :: t in turns && t.key == turn.key ==> t.phase.Done?
      ensures forall key :: key != turn.key ==> (key in projectLocks <==> key in old(projectLocks))
    {
      hide Orderly;
      assert Shows(i);
      NextKeeps(state, Exit(i));
      TailStillWaits(state, i);
      turn.phase := Done;
      if turn.key in projectLocks && projectLocks[turn.key] == turn {
        projectLocks := projectLocks - {turn.key};
      }
      state := Next(state, Exit(i));
      forall k | 0 <= k < |turns| ensures Shows(k) {
        assert old(Shows(k));
      }
      FreeExactly(turn.key);
    }

    /** A released promise settles once the one it was chained to has. */
    method Settle(turn: Turn<Key>, ghost i: nat)
      requires Valid() && i < |turns| && turns[i] == turn && turn.phase.Done? && Ready(turn)
      modifies turn`settled, this`state
      ensures Valid() && turn.settled && Moves(old(state), Step.Settle(i), state)
    {
      hide Orderly;
      AwaitsWhatItShows(i);
      assert Shows(i);
      NextKeeps(state, Step.Settle(i));
      turn.settled := true;
      state := Next(state, Step.Settle(i));
      forall k | 0 <= k < |turns| ensures Shows(k) {
        assert old(Shows(k));
      }
    }
  }
}
