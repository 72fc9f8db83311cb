/** The iterative Tarjan loop of the dependency tracer, with its explicit work
    stack, and the cycles it reports. */
module Tarjan {
  import opened Graphs

  /** One work-stack entry: a node and how many of its successors the entry's
      iterator has already handed out. */
  datatype Frame<T> = Frame(node: T, next: nat)

  type Table<T> = map<T, nat>

  /** What the correctness argument sees of the loop: its tables and stacks, the
      nodes of the work stack bottom to top, and every edge an iterator has
      handed out so far. */
  datatype State<T> = State(
    index: Table<T>,
    low: Table<T>,
    counter: nat,
    stack: seq<T>,
    onStack: set<T>,
    gray: seq<T>,
    seen: set<(T, T)>,
    comps: seq<seq<T>>)

  // ---------------------------------------------------------------- invariant

  ghost predicate Tables<T>(index: Table<T>, low: Table<T>, counter: nat, onStack: set<T>) {
    && low.Keys == index.Keys
    && (forall x :: x in index ==> index[x] < counter)
    && (forall x, y :: x in index && y in index && index[x] == index[y] ==> x == y)
    && (forall x :: x in onStack ==> x in index && low[x] <= index[x])
  }

  /** The nodes of a list carry indices that rise along it. */
  ghost predicate Rising<T>(index: Table<T>, xs: seq<T>) {
    && (forall i :: 0 <= i < |xs| ==> xs[i] in index)
    && (forall i, j :: 0 <= i < j < |xs| ==> index[xs[i]] < index[xs[j]])
  }

  ghost predicate Stacks<T>(index: Table<T>, stack: seq<T>, onStack: set<T>, gray: seq<T>) {
    && Rising(index, stack)
    && Rising(index, gray)
    && (forall x :: x in onStack ==> x in stack)
    && (forall i :: 0 <= i < |stack| ==> stack[i] in onStack)
    && (forall k :: 0 <= k < |gray| ==> gray[k] in onStack)
  }

  /** Edges handed out lead to indexed nodes, and a node that has left the work
      stack has had all its edges handed out. */
  ghost predicate Explored<T(!new)>(g: Graph<T>, index: Table<T>, gray: seq<T>, seen: set<(T, T)>) {
    && (forall y, z :: (y, z) in seen ==> y in index && z in index)
    && (forall y, z :: y in index && y !in gray && z in Succ(g, y) ==> (y, z) in seen)
  }

  ghost predicate Below<T>(index: Table<T>, x: T, y: T) {
    x in index && y in index && index[x] <= index[y]
  }

  /** A node on the work stack reaches everything above it on the stack. */
  ghost predicate ReachUp<T(!new)>(g: Graph<T>, index: Table<T>, onStack: set<T>, gray: seq<T>) {
    forall k, x :: 0 <= k < |gray| && x in onStack && Below(index, gray[k], x) ==> Reach(g, gray[k], x)
  }

  ghost predicate Anchored<T(!new)>(g: Graph<T>, index: Table<T>, gray: seq<T>, x: T) {
    exists k :: 0 <= k < |gray| && Below(index, gray[k], x) && Reach(g, x, gray[k])
  }

  /** Every node on the stack reaches a node of the work stack below it. */
  ghost predicate ReachDown<T(!new)>(g: Graph<T>, index: Table<T>, onStack: set<T>, gray: seq<T>) {
    forall x {:trigger Anchored(g, index, gray, x)} :: x in onStack ==> Anchored(g, index, gray, x)
  }

  ghost predicate LowWitness<T(!new)>(g: Graph<T>, index: Table<T>, low: Table<T>, onStack: set<T>, x: T) {
    x in low && exists z :: z in onStack && z in index && index[z] == low[x] && Reach(g, x, z)
  }

  /** A lowlink is the index of a reachable node of the stack. */
  ghost predicate LowSound<T(!new)>(g: Graph<T>, index: Table<T>, low: Table<T>, onStack: set<T>) {
    forall x {:trigger LowWitness(g, index, low, onStack, x)} :: x in onStack ==> LowWitness(g, index, low, onStack, x)
  }

  /** y lies on the stack between work entry k and the next work entry. */
  ghost predicate Owns<T>(index: Table<T>, gray: seq<T>, k: int, y: T) {
    0 <= k < |gray| && Below(index, gray[k], y) && (k + 1 < |gray| ==> !Below(index, gray[k + 1], y))
  }

  ghost predicate LowAtMost<T>(index: Table<T>, low: Table<T>, x: T, z: T) {
    x in low && z in index && low[x] <= index[z]
  }

  /** No edge handed out so far goes below the lowlink of the entry that owns it. */
  ghost predicate LowComplete<T(!new)>(
    index: Table<T>, low: Table<T>, onStack: set<T>, gray: seq<T>, seen: set<(T, T)>)
  {
    forall k, y, z :: Owns(index, gray, k, y) && (y, z) in seen && y in onStack && z in onStack ==>
                        LowAtMost(index, low, gray[k], z)
  }

  /** The nodes already given to a component. */
  ghost predicate Finished<T>(index: Table<T>, onStack: set<T>, x: T) {
    x in index && x !in onStack
  }

  ghost predicate FinishedClosed<T(!new)>(g: Graph<T>, index: Table<T>, onStack: set<T>) {
    forall x, y :: Finished(index, onStack, x) && y in Succ(g, x) ==> Finished(index, onStack, y)
  }

  ghost predicate Listed<T>(comps: seq<seq<T>>, x: T) {
    exists a :: 0 <= a < |comps| && x in comps[a]
  }

  /** No component is empty and no node is listed twice. */
  ghost predicate NoRepeats<T>(comps: seq<seq<T>>) {
    && (forall a, i, b, j ::
          0 <= a < |comps| && 0 <= i < |comps[a]| && 0 <= b < |comps| && 0 <= j < |comps[b]| ==>
            comps[a][i] == comps[b][j] ==> a == b && i == j)
    && (forall a :: 0 <= a < |comps| ==> |comps[a]| > 0)
  }

  /** Two listed nodes share a component exactly when each reaches the other. */
  ghost predicate Classes<T(!new)>(g: Graph<T>, comps: seq<seq<T>>) {
    forall a, b, x, y :: 0 <= a < |comps| && 0 <= b < |comps| && x in comps[a] && y in comps[b] ==>
                           (a == b <==> Mutual(g, x, y))
  }

  ghost predicate CompsOk<T(!new)>(g: Graph<T>, index: Table<T>, onStack: set<T>, comps: seq<seq<T>>) {
    && (forall x :: Listed(comps, x) <==> Finished(index, onStack, x))
    && NoRepeats(comps)
    && Classes(g, comps)
  }

  ghost predicate Inv<T(!new)>(g: Graph<T>, s: State<T>) {
    && Tables(s.index, s.low, s.counter, s.onStack)
    && Stacks(s.index, s.stack, s.onStack, s.gray)
    && Explored(g, s.index, s.gray, s.seen)
    && ReachUp(g, s.index, s.onStack, s.gray)
    && ReachDown(g, s.index, s.onStack, s.gray)
    && LowSound(g, s.index, s.low, s.onStack)
    && LowComplete(s.index, s.low, s.onStack, s.gray, s.seen)
    && FinishedClosed(g, s.index, s.onStack)
    && CompsOk(g, s.index, s.onStack, s.comps)
  }

  // -------------------------------------------------------------- transitions

  ghost function Top<T>(s: State<T>): T
    requires |s.gray| > 0
  {
    s.gray[|s.gray| - 1]
  }

  function Min(a: nat, b: nat): nat {
    if a <= b then a else b
  }

  /** The top entry looks at a successor that already has an index. */
  ghost function LookBack<T>(s: State<T>, child: T): State<T>
    requires |s.gray| > 0 && child in s.index && Top(s) in s.low
  {
    s.(seen := s.seen + {(Top(s), child)},
       low := if child in s.onStack then s.low[Top(s) := Min(s.low[Top(s)], s.index[child])] else s.low)
  }

  ghost predicate CanLookBack<T(!new)>(g: Graph<T>, s: State<T>, child: T) {
    Inv(g, s) && |s.gray| > 0 && child in Succ(g, Top(s)) && child in s.index
  }

  lemma LookBackTables<T(!new)>(g: Graph<T>, s: State<T>, child: T)
    requires CanLookBack(g, s, child)
    ensures Top(s) in s.low
    ensures var t := LookBack(s, child); Tables(t.index, t.low, t.counter, t.onStack)
    ensures var t := LookBack(s, child); Explored(g, t.index, t.gray, t.seen)
  {
    hide ReachUp, ReachDown, LowSound, LowComplete, FinishedClosed, CompsOk;
  }

  lemma LookBackLowSound<T(!new)>(g: Graph<T>, s: State<T>, child: T)
    requires CanLookBack(g, s, child) && Top(s) in s.low
    ensures var t := LookBack(s, child); LowSound(g, t.index, t.low, t.onStack)
  {
    hide Explored, ReachUp, ReachDown, LowComplete, FinishedClosed, CompsOk, Reach, Rising;
    var t := LookBack(s, child);
    forall x | x in t.onStack ensures LowWitness(g, t.index, t.low, t.onStack, x) {
      assert LowWitness(g, s.index, s.low, s.onStack, x);
      if t.low[x] != s.low[x] {
        ReachEdge(g, x, child);
        assert t.index[child] == t.low[x];
      }
    }
  }

  lemma LookBackLowComplete<T(!new)>(g: Graph<T>, s: State<T>, child: T)
    requires CanLookBack(g, s, child) && Top(s) in s.low
    ensures var t := LookBack(s, child); LowComplete(t.index, t.low, t.onStack, t.gray, t.seen)
  {
    hide Explored, ReachUp, ReachDown, LowSound, FinishedClosed, CompsOk;
    var t := LookBack(s, child);
    forall k, y, z | Owns(t.index, t.gray, k, y) && (y, z) in t.seen && y in t.onStack && z in t.onStack
      ensures LowAtMost(t.index, t.low, t.gray[k], z)
    {
      if (y, z) in s.seen {
        assert LowAtMost(s.index, s.low, s.gray[k], z);
      } else {
        assert k == |s.gray| - 1;
      }
    }
  }

  lemma LookBackKeeps<T(!new)>(g: Graph<T>, s: State<T>, child: T)
    requires CanLookBack(g, s, child)
    ensures Top(s) in s.low && Inv(g, LookBack(s, child))
  {
    hide Tables, Stacks, Explored, ReachUp, ReachDown, LowSound, LowComplete, FinishedClosed, CompsOk;
    LookBackTables(g, s, child);
    LookBackLowSound(g, s, child);
    LookBackLowComplete(g, s, child);
  }

  /** A node without an index gets one and goes on both stacks; via holds the
      edge it was found by, if any. */
  ghost function Enter<T>(s: State<T>, child: T, via: set<(T, T)>): State<T> {
    s.(index := s.index[child := s.counter],
       low := s.low[child := s.counter],
       counter := s.counter + 1,
       stack := s.stack + [child],
       onStack := s.onStack + {child},
       gray := s.gray + [child],
       seen := s.seen + via)
  }

  ghost predicate CanEnter<T(!new)>(g: Graph<T>, s: State<T>, child: T, via: set<(T, T)>) {
    && Inv(g, s) && child !in s.index
    && (forall k :: 0 <= k < |s.gray| ==> Reach(g, s.gray[k], child))
    && (forall e :: e in via ==> |s.gray| > 0 && e == (Top(s), child))
  }

  lemma EnterTables<T(!new)>(g: Graph<T>, s: State<T>, child: T, via: set<(T, T)>)
    requires CanEnter(g, s, child, via)
    ensures var t := Enter(s, child, via); Tables(t.index, t.low, t.counter, t.onStack)
    ensures var t := Enter(s, child, via); Explored(g, t.index, t.gray, t.seen)
  {
    hide ReachUp, ReachDown, LowSound, LowComplete, FinishedClosed, CompsOk, Reach;
    var t := Enter(s, child, via);
    forall y, z | y in t.index && y !in t.gray && z in Succ(g, y) ensures (y, z) in t.seen {
      assert child == t.gray[|s.gray|];
      assert forall k :: 0 <= k < |s.gray| ==> s.gray[k] == t.gray[k];
    }
  }

  lemma RisingSnoc<T(!new)>(index: Table<T>, xs: seq<T>, x: T, n: nat)
    requires Rising(index, xs) && x !in index && forall y :: y in index ==> index[y] < n
    ensures Rising(index[x := n], xs + [x])
  {
  }

  lemma EnterStacks<T(!new)>(g: Graph<T>, s: State<T>, child: T, via: set<(T, T)>)
    requires CanEnter(g, s, child, via)
    ensures var t := Enter(s, child, via); Stacks(t.index, t.stack, t.onStack, t.gray)
  {
    hide Explored, ReachUp, ReachDown, LowSound, LowComplete, FinishedClosed, CompsOk, Reach, Rising;
    RisingSnoc(s.index, s.stack, child, s.counter);
    RisingSnoc(s.index, s.gray, child, s.counter);
  }

  lemma EnterReach<T(!new)>(g: Graph<T>, s: State<T>, child: T, via: set<(T, T)>)
    requires CanEnter(g, s, child, via)
    ensures var t := Enter(s, child, via); ReachUp(g, t.index, t.onStack, t.gray)
    ensures var t := Enter(s, child, via); ReachDown(g, t.index, t.onStack, t.gray)
  {
    hide Explored, LowSound, LowComplete, FinishedClosed, CompsOk, Reach, Rising;
    var t := Enter(s, child, via);
    ReachRefl(g, child);
    forall x | x in t.onStack ensures Anchored(g, t.index, t.gray, x) {
      if x == child {
        assert t.gray[|s.gray|] == x;
      } else {
        assert Anchored(g, s.index, s.gray, x);
        var k :| 0 <= k < |s.gray| && Below(s.index, s.gray[k], x) && Reach(g, x, s.gray[k]);
        assert t.gray[k] == s.gray[k] && Below(t.index, t.gray[k], x);
      }
    }
  }

  lemma EnterLowSound<T(!new)>(g: Graph<T>, s: State<T>, child: T, via: set<(T, T)>)
    requires CanEnter(g, s, child, via)
    ensures var t := Enter(s, child, via); LowSound(g, t.index, t.low, t.onStack)
  {
    hide Explored, ReachUp, ReachDown, LowComplete, FinishedClosed, CompsOk, Reach, Rising;
    var t := Enter(s, child, via);
    ReachRefl(g, child);
    forall x | x in t.onStack ensures LowWitness(g, t.index, t.low, t.onStack, x) {
      if x != child {
        assert LowWitness(g, s.index, s.low, s.onStack, x);
      } else {
        assert t.index[child] == t.low[x];
      }
    }
  }

  lemma EnterLowComplete<T(!new)>(g: Graph<T>, s: State<T>, child: T, via: set<(T, T)>)
    requires CanEnter(g, s, child, via)
    ensures var t := Enter(s, child, via); LowComplete(t.index, t.low, t.onStack, t.gray, t.seen)
  {
    hide ReachUp, ReachDown, LowSound, FinishedClosed, CompsOk, Reach, Rising;
    var t := Enter(s, child, via);
    forall k, y, z | Owns(t.index, t.gray, k, y) && (y, z) in t.seen && y in t.onStack && z in t.onStack
      ensures LowAtMost(t.index, t.low, t.gray[k], z)
    {
      assert y in s.index && s.index[y] < s.counter;
      assert k < |s.gray|;
      assert t.gray[k + 1] == if k + 1 < |s.gray| then s.gray[k + 1] else child;
      assert Owns(s.index, s.gray, k, y);
      if (y, z) in s.seen {
        assert LowAtMost(s.index, s.low, s.gray[k], z);
      }
    }
  }

  lemma EnterFinished<T(!new)>(g: Graph<T>, s: State<T>, child: T, via: set<(T, T)>)
    requires CanEnter(g, s, child, via)
    ensures var t := Enter(s, child, via); FinishedClosed(g, t.index, t.onStack)
    ensures var t := Enter(s, child, via); CompsOk(g, t.index, t.onStack, t.comps)
  {
    hide Explored, ReachUp, ReachDown, LowSound, LowComplete, NoRepeats, Classes, Rising, Listed;
    var t := Enter(s, child, via);
    assert forall x :: Finished(t.index, t.onStack, x) <==> Finished(s.index, s.onStack, x);
  }

  lemma EnterKeeps<T(!new)>(g: Graph<T>, s: State<T>, child: T, via: set<(T, T)>)
    requires CanEnter(g, s, child, via)
    ensures Inv(g, Enter(s, child, via))
  {
    hide Tables, Stacks, Explored, ReachUp, ReachDown, LowSound, LowComplete, FinishedClosed, CompsOk;
    EnterTables(g, s, child, via);
    EnterStacks(g, s, child, via);
    EnterReach(g, s, child, via);
    EnterLowSound(g, s, child, via);
    EnterLowComplete(g, s, child, via);
    EnterFinished(g, s, child, via);
  }

  /** The exhausted top entry leaves the work stack and passes its lowlink on. */
  ghost function Retreat<T>(s: State<T>): State<T>
    requires |s.gray| > 0 && forall k :: 0 <= k < |s.gray| ==> s.gray[k] in s.low
  {
    var rest := s.gray[..|s.gray| - 1];
    if rest == [] then s.(gray := rest)
    else
      var parent := rest[|rest| - 1];
      s.(gray := rest, low := s.low[parent := Min(s.low[parent], s.low[Top(s)])])
  }

  ghost predicate Exhausted<T(!new)>(g: Graph<T>, s: State<T>) {
    && Inv(g, s) && |s.gray| > 0
    && (forall k :: 0 <= k < |s.gray| ==> s.gray[k] in s.low && s.gray[k] in s.index)
    && (forall z :: z in Succ(g, Top(s)) ==> (Top(s), z) in s.seen)
  }

  lemma RetreatTables<T(!new)>(g: Graph<T>, s: State<T>)
    requires Exhausted(g, s)
    ensures var t := Retreat(s); Tables(t.index, t.low, t.counter, t.onStack)
  {
    hide Explored, ReachUp, ReachDown, LowSound, LowComplete, FinishedClosed, CompsOk, Stacks;
  }

  lemma RetreatStacks<T(!new)>(g: Graph<T>, s: State<T>)
    requires Exhausted(g, s)
    ensures var t := Retreat(s); Stacks(t.index, t.stack, t.onStack, t.gray)
  {
    hide Explored, ReachUp, ReachDown, LowSound, LowComplete, FinishedClosed, CompsOk, Tables;
  }

  lemma RetreatExplored<T(!new)>(g: Graph<T>, s: State<T>)
    requires Exhausted(g, s)
    ensures var t := Retreat(s); Explored(g, t.index, t.gray, t.seen)
    ensures var t := Retreat(s); ReachUp(g, t.index, t.onStack, t.gray)
  {
    hide ReachDown, LowSound, LowComplete, FinishedClosed, CompsOk, Rising, Tables, Reach;
    var t := Retreat(s);
    forall y, z | y in t.index && y !in t.gray && z in Succ(g, y) ensures (y, z) in t.seen {
      assert forall k :: 0 <= k < |t.gray| ==> s.gray[k] == t.gray[k];
      assert y in s.gray ==> y == Top(s);
    }
  }

  /** An exhausted node that is no root of its component reaches below itself. */
  lemma RetreatAnchor<T(!new)>(g: Graph<T>, s: State<T>) returns (k: int)
    requires Exhausted(g, s) && s.low[Top(s)] < s.index[Top(s)]
    ensures 0 <= k < |s.gray| - 1 && Reach(g, Top(s), s.gray[k]) && Below(s.index, s.gray[k], Top(s))
  {
    hide Explored, ReachUp, LowComplete, FinishedClosed, CompsOk, Reach;
    assert LowWitness(g, s.index, s.low, s.onStack, Top(s));
    var z :| z in s.onStack && z in s.index && s.index[z] == s.low[Top(s)] && Reach(g, Top(s), z);
    assert Anchored(g, s.index, s.gray, z);
    k :| 0 <= k < |s.gray| && Below(s.index, s.gray[k], z) && Reach(g, z, s.gray[k]);
    ReachTrans(g, Top(s), z, s.gray[k]);
  }

  lemma RetreatReachDown<T(!new)>(g: Graph<T>, s: State<T>)
    requires Exhausted(g, s) && s.low[Top(s)] < s.index[Top(s)]
    ensures var t := Retreat(s); ReachDown(g, t.index, t.onStack, t.gray)
  {
    hide Explored, ReachUp, LowSound, LowComplete, FinishedClosed, CompsOk, Reach, Rising, Tables;
    var t := Retreat(s);
    var a := RetreatAnchor(g, s);
    forall x | x in t.onStack ensures Anchored(g, t.index, t.gray, x) {
      assert Anchored(g, s.index, s.gray, x);
      var k :| 0 <= k < |s.gray| && Below(s.index, s.gray[k], x) && Reach(g, x, s.gray[k]);
      if k == |s.gray| - 1 {
        ReachTrans(g, x, Top(s), s.gray[a]);
        assert t.gray[a] == s.gray[a] && Below(t.index, t.gray[a], x);
      } else {
        assert t.gray[k] == s.gray[k];
      }
    }
  }

  lemma RetreatLowSound<T(!new)>(g: Graph<T>, s: State<T>)
    requires Exhausted(g, s)
    ensures var t := Retreat(s); LowSound(g, t.index, t.low, t.onStack)
  {
    hide Explored, ReachDown, LowComplete, FinishedClosed, CompsOk, Reach;
    var t := Retreat(s);
    assert LowWitness(g, s.index, s.low, s.onStack, Top(s));
    forall x | x in t.onStack ensures LowWitness(g, t.index, t.low, t.onStack, x) {
      assert LowWitness(g, s.index, s.low, s.onStack, x);
      if t.low[x] != s.low[x] {
        assert Below(s.index, x, Top(s));
        assert Reach(g, x, Top(s));
        var z :| z in s.onStack && z in s.index && s.index[z] == s.low[Top(s)] && Reach(g, Top(s), z);
        ReachTrans(g, x, Top(s), z);
        assert t.index[z] == t.low[x];
      }
    }
  }

  lemma RetreatLowComplete<T(!new)>(g: Graph<T>, s: State<T>)
    requires Exhausted(g, s)
    ensures var t := Retreat(s); LowComplete(t.index, t.low, t.onStack, t.gray, t.seen)
  {
    hide Explored, ReachUp, ReachDown, LowSound, FinishedClosed, CompsOk;
    var t := Retreat(s);
    forall k, y, z | Owns(t.index, t.gray, k, y) && (y, z) in t.seen && y in t.onStack && z in t.onStack
      ensures LowAtMost(t.index, t.low, t.gray[k], z)
    {
      if k == |t.gray| - 1 && Below(s.index, Top(s), y) {
        assert Owns(s.index, s.gray, |s.gray| - 1, y);
        assert LowAtMost(s.index, s.low, Top(s), z);
      } else {
        assert Owns(s.index, s.gray, k, y);
        assert LowAtMost(s.index, s.low, s.gray[k], z);
      }
    }
  }

  lemma RetreatKeeps<T(!new)>(g: Graph<T>, s: State<T>)
    requires Exhausted(g, s) && s.low[Top(s)] < s.index[Top(s)]
    ensures Inv(g, Retreat(s))
  {
    hide Tables, Stacks, Explored, ReachUp, ReachDown, LowSound, LowComplete, FinishedClosed, CompsOk;
    RetreatTables(g, s);
    RetreatStacks(g, s);
    RetreatExplored(g, s);
    RetreatReachDown(g, s);
    RetreatLowSound(g, s);
    RetreatLowComplete(g, s);
  }

  /** The stack from the top entry's node upwards leaves the stack as a component. */
  ghost function Collapse<T>(s: State<T>, p: nat, comp: seq<T>): State<T>
    requires |s.gray| > 0 && p <= |s.stack|
  {
    s.(gray := s.gray[..|s.gray| - 1],
       stack := s.stack[..p],
       onStack := (set x | x in s.onStack && x !in s.stack[p..]),
       comps := s.comps + [comp])
  }

  ghost predicate SameElements<T(!new)>(xs: seq<T>, ys: seq<T>) {
    && (forall x :: x in xs <==> x in ys)
    && (forall i, j :: 0 <= i < j < |xs| ==> xs[i] != xs[j])
  }

  /** The exhausted top entry sits at position p and its lowlink is its own index;
      comp lists the stack from p upwards. */
  ghost predicate AtRoot<T(!new)>(g: Graph<T>, s: State<T>, p: nat, comp: seq<T>) {
    && Exhausted(g, s) && p < |s.stack| && s.stack[p] == Top(s)
    && s.low[Top(s)] == s.index[Top(s)]
    && SameElements(comp, s.stack[p..])
  }

  /** The nodes that leave are those the top entry is below. */
  lemma Segment<T(!new)>(g: Graph<T>, s: State<T>, p: nat, comp: seq<T>)
    requires AtRoot(g, s, p, comp)
    ensures forall x :: x in comp <==> x in s.onStack && Below(s.index, Top(s), x)
  {
    hide Explored, ReachUp, ReachDown, LowSound, LowComplete, FinishedClosed, CompsOk, Tables;
    forall x ensures x in comp <==> x in s.onStack && Below(s.index, Top(s), x) {
      if x in comp {
        var i :| 0 <= i < |s.stack[p..]| && s.stack[p..][i] == x;
        assert s.stack[p + i] == x;
      }
      if x in s.onStack && Below(s.index, Top(s), x) {
        var i :| 0 <= i < |s.stack| && s.stack[i] == x;
        assert s.stack[p..][i - p] == x;
      }
    }
  }

  ghost predicate Segmented<T(!new)>(s: State<T>, comp: seq<T>)
    requires |s.gray| > 0
  {
    forall x :: x in comp <==> x in s.onStack && Below(s.index, Top(s), x)
  }

  /** Edges out of the segment end in it or in a finished component. */
  lemma SegmentClosed<T(!new)>(g: Graph<T>, s: State<T>, p: nat, comp: seq<T>, x: T, z: T)
    requires AtRoot(g, s, p, comp) && Segmented(s, comp)
    requires x in comp && z in Succ(g, x)
    ensures z in comp || Finished(s.index, s.onStack, z)
  {
    hide ReachUp, ReachDown, LowSound, FinishedClosed, CompsOk, Tables, SameElements;
    assert (x, z) in s.seen;
    if z in s.onStack {
      assert Owns(s.index, s.gray, |s.gray| - 1, x);
      assert LowAtMost(s.index, s.low, Top(s), z);
    }
  }

  lemma SegmentMutual<T(!new)>(g: Graph<T>, s: State<T>, p: nat, comp: seq<T>, x: T, y: T)
    requires AtRoot(g, s, p, comp) && Segmented(s, comp)
    requires x in comp && y in comp
    ensures Reach(g, x, y)
  {
    hide Explored, LowComplete, LowSound, FinishedClosed, CompsOk, Tables, SameElements, Reach;
    assert Anchored(g, s.index, s.gray, x);
    var k :| 0 <= k < |s.gray| && Below(s.index, s.gray[k], x) && Reach(g, x, s.gray[k]);
    assert Below(s.index, s.gray[k], Top(s));
    ReachTrans(g, x, s.gray[k], Top(s));
    assert Reach(g, Top(s), y);
    ReachTrans(g, x, Top(s), y);
  }

  lemma SegmentMaximal<T(!new)>(g: Graph<T>, s: State<T>, p: nat, comp: seq<T>, x: T, y: T)
    requires AtRoot(g, s, p, comp) && Segmented(s, comp)
    requires x in comp && Mutual(g, x, y)
    ensures y in comp
  {
    hide Explored, ReachUp, ReachDown, LowComplete, LowSound, CompsOk, Tables, SameElements, Stacks, Reach;
    var finished := set v | v in s.index && v !in s.onStack;
    var all := finished + (set v | v in s.onStack && v in comp);
    forall v, z | v in all && z in Succ(g, v) ensures z in all {
      if v in comp {
        SegmentClosed(g, s, p, comp, v, z);
      } else {
        assert Finished(s.index, s.onStack, v);
        assert Finished(s.index, s.onStack, z);
      }
    }
    ClosedReach(g, all, x, y);
    if y in finished {
      forall v, z | v in finished && z in Succ(g, v) ensures z in finished {
        assert Finished(s.index, s.onStack, v);
        assert Finished(s.index, s.onStack, z);
      }
      ClosedReach(g, finished, y, x);
      assert false;
    }
  }

  lemma CollapseShape<T(!new)>(g: Graph<T>, s: State<T>, p: nat, comp: seq<T>)
    requires AtRoot(g, s, p, comp) && Segmented(s, comp)
    ensures var t := Collapse(s, p, comp); forall x :: x in t.onStack <==> x in s.onStack && x !in comp
    ensures var t := Collapse(s, p, comp);
            Tables(t.index, t.low, t.counter, t.onStack) && Stacks(t.index, t.stack, t.onStack, t.gray)
  {
    hide Explored, ReachUp, ReachDown, LowComplete, LowSound, FinishedClosed, CompsOk;
    var t := Collapse(s, p, comp);
    forall x | x in t.onStack ensures x in t.stack {
      assert forall i :: p <= i < |s.stack| ==> s.stack[p..][i - p] == s.stack[i];
      var i :| 0 <= i < |s.stack| && s.stack[i] == x;
      assert t.stack[i] == x;
    }
  }

  ghost predicate Shrunk<T(!new)>(s: State<T>, t: State<T>, comp: seq<T>) {
    forall x :: x in t.onStack <==> x in s.onStack && x !in comp
  }

  lemma CollapseExplored<T(!new)>(g: Graph<T>, s: State<T>, p: nat, comp: seq<T>)
    requires AtRoot(g, s, p, comp)
    ensures var t := Collapse(s, p, comp); Explored(g, t.index, t.gray, t.seen)
  {
    hide ReachUp, ReachDown, LowComplete, LowSound, FinishedClosed, CompsOk, Tables, Reach, SameElements, Stacks;
    var t := Collapse(s, p, comp);
    assert forall k :: 0 <= k < |t.gray| ==> s.gray[k] == t.gray[k];
    forall y, z | y in t.index && y !in t.gray && z in Succ(g, y) ensures (y, z) in t.seen {
      assert y in s.gray ==> y == Top(s);
    }
  }

  lemma CollapseReach<T(!new)>(g: Graph<T>, s: State<T>, p: nat, comp: seq<T>)
    requires AtRoot(g, s, p, comp) && Segmented(s, comp) && Shrunk(s, Collapse(s, p, comp), comp)
    ensures var t := Collapse(s, p, comp); ReachUp(g, t.index, t.onStack, t.gray)
    ensures var t := Collapse(s, p, comp); ReachDown(g, t.index, t.onStack, t.gray)
  {
    hide Explored, LowComplete, LowSound, FinishedClosed, CompsOk, Tables, Reach, SameElements;
    var t := Collapse(s, p, comp);
    forall x | x in t.onStack ensures Anchored(g, t.index, t.gray, x) {
      assert Anchored(g, s.index, s.gray, x);
      var k :| 0 <= k < |s.gray| && Below(s.index, s.gray[k], x) && Reach(g, x, s.gray[k]);
      assert t.gray[k] == s.gray[k];
    }
  }

  lemma CollapseLowSound<T(!new)>(g: Graph<T>, s: State<T>, p: nat, comp: seq<T>)
    requires AtRoot(g, s, p, comp) && Segmented(s, comp) && Shrunk(s, Collapse(s, p, comp), comp)
    ensures var t := Collapse(s, p, comp); LowSound(g, t.index, t.low, t.onStack)
  {
    hide Explored, ReachUp, ReachDown, LowComplete, FinishedClosed, CompsOk, Reach, SameElements, Stacks;
    var t := Collapse(s, p, comp);
    forall x | x in t.onStack ensures LowWitness(g, t.index, t.low, t.onStack, x) {
      assert LowWitness(g, s.index, s.low, s.onStack, x);
      var z :| z in s.onStack && z in s.index && s.index[z] == s.low[x] && Reach(g, x, z);
      assert z in t.onStack;
    }
  }

  lemma CollapseLowComplete<T(!new)>(g: Graph<T>, s: State<T>, p: nat, comp: seq<T>)
    requires AtRoot(g, s, p, comp) && Segmented(s, comp) && Shrunk(s, Collapse(s, p, comp), comp)
    ensures var t := Collapse(s, p, comp); LowComplete(t.index, t.low, t.onStack, t.gray, t.seen)
  {
    hide Explored, ReachUp, ReachDown, LowSound, FinishedClosed, CompsOk, Reach, SameElements, Stacks, Tables;
    var t := Collapse(s, p, comp);
    forall k, y, z | Owns(t.index, t.gray, k, y) && (y, z) in t.seen && y in t.onStack && z in t.onStack
      ensures LowAtMost(t.index, t.low, t.gray[k], z)
    {
      assert t.gray[k] == s.gray[k];
      assert k + 1 < |t.gray| ==> t.gray[k + 1] == s.gray[k + 1];
      assert Owns(s.index, s.gray, k, y);
      assert LowAtMost(s.index, s.low, s.gray[k], z);
    }
  }

  lemma CollapseFinished<T(!new)>(g: Graph<T>, s: State<T>, p: nat, comp: seq<T>)
    requires AtRoot(g, s, p, comp) && Segmented(s, comp) && Shrunk(s, Collapse(s, p, comp), comp)
    ensures var t := Collapse(s, p, comp); FinishedClosed(g, t.index, t.onStack)
  {
    hide Explored, ReachUp, ReachDown, LowSound, LowComplete, CompsOk, Reach, SameElements, Stacks;
    var t := Collapse(s, p, comp);
    forall x, y | Finished(t.index, t.onStack, x) && y in Succ(g, x) ensures Finished(t.index, t.onStack, y) {
      if x in comp {
        SegmentClosed(g, s, p, comp, x, y);
      } else {
        assert Finished(s.index, s.onStack, x);
        assert Finished(s.index, s.onStack, y);
      }
    }
  }

  lemma CollapseListed<T(!new)>(g: Graph<T>, s: State<T>, p: nat, comp: seq<T>)
    requires AtRoot(g, s, p, comp) && Segmented(s, comp) && Shrunk(s, Collapse(s, p, comp), comp)
    ensures var t := Collapse(s, p, comp);
            forall x :: Listed(t.comps, x) <==> Finished(t.index, t.onStack, x)
    ensures NoRepeats(Collapse(s, p, comp).comps)
  {
    assert Top(s) in comp;
    hide Explored, ReachUp, ReachDown, LowSound, LowComplete, FinishedClosed, Reach, Classes, Stacks;
    var t := Collapse(s, p, comp);
    ListedSnoc(s.comps, comp);
    assert Tables(s.index, s.low, s.counter, s.onStack);
    assert forall x :: Finished(t.index, t.onStack, x) <==> Finished(s.index, s.onStack, x) || x in comp;
    hide Tables;
    NoRepeatsSnoc(s.comps, comp);
  }

  lemma ListedSnoc<T(!new)>(comps: seq<seq<T>>, comp: seq<T>)
    ensures forall x :: Listed(comps + [comp], x) <==> Listed(comps, x) || x in comp
  {
    var all := comps + [comp];
    forall x ensures Listed(all, x) <==> Listed(comps, x) || x in comp {
      if Listed(comps, x) {
        var a :| 0 <= a < |comps| && x in comps[a];
        assert x in all[a];
      }
      if x in comp { assert x in all[|comps|]; }
    }
  }

  lemma NoRepeatsSnoc<T(!new)>(comps: seq<seq<T>>, comp: seq<T>)
    requires NoRepeats(comps) && |comp| > 0
    requires forall i, j :: 0 <= i < j < |comp| ==> comp[i] != comp[j]
    requires forall x :: x in comp ==> !Listed(comps, x)
    ensures NoRepeats(comps + [comp])
  {
    var all := comps + [comp];
    forall a, i, b, j | 0 <= a < |all| && 0 <= i < |all[a]| && 0 <= b < |all| && 0 <= j < |all[b]|
      && all[a][i] == all[b][j]
      ensures a == b && i == j
    {
      if a < |comps| {
        assert all[a] == comps[a] && comps[a][i] in comps[a];
        assert Listed(comps, comps[a][i]);
      }
      if b < |comps| {
        assert all[b] == comps[b] && comps[b][j] in comps[b];
        assert Listed(comps, comps[b][j]);
      }
    }
  }

  lemma CollapseClasses<T(!new)>(g: Graph<T>, s: State<T>, p: nat, comp: seq<T>)
    requires AtRoot(g, s, p, comp) && Segmented(s, comp) && Shrunk(s, Collapse(s, p, comp), comp)
    ensures Classes(g, Collapse(s, p, comp).comps)
  {
    hide Explored, ReachUp, ReachDown, LowSound, LowComplete, FinishedClosed, Reach, Stacks, Tables, SameElements;
    hide NoRepeats;
    var t := Collapse(s, p, comp);
    forall a, b, x, y | 0 <= a < |t.comps| && 0 <= b < |t.comps| && x in t.comps[a] && y in t.comps[b]
      ensures a == b <==> Mutual(g, x, y)
    {
      if a < |s.comps| {
        assert Listed(s.comps, x);
        if b < |s.comps| {
        } else if Mutual(g, x, y) {
          SegmentMaximal(g, s, p, comp, y, x);
        }
      } else if b < |s.comps| {
        assert Listed(s.comps, y);
        if Mutual(g, x, y) {
          SegmentMaximal(g, s, p, comp, x, y);
        }
      } else {
        SegmentMutual(g, s, p, comp, x, y);
        SegmentMutual(g, s, p, comp, y, x);
      }
    }
  }

  lemma CollapseKeeps<T(!new)>(g: Graph<T>, s: State<T>, p: nat, comp: seq<T>)
    requires AtRoot(g, s, p, comp)
    ensures Inv(g, Collapse(s, p, comp))
  {
    hide Tables, Stacks, Explored, ReachUp, ReachDown, LowSound, LowComplete, FinishedClosed, NoRepeats, Classes;
    hide Listed, Finished;
    Segment(g, s, p, comp);
    CollapseShape(g, s, p, comp);
    CollapseExplored(g, s, p, comp);
    CollapseReach(g, s, p, comp);
    CollapseLowSound(g, s, p, comp);
    CollapseLowComplete(g, s, p, comp);
    CollapseFinished(g, s, p, comp);
    CollapseListed(g, s, p, comp);
    CollapseClasses(g, s, p, comp);
  }

  // ----------------------------------------------------------------- the loop

  /** The work stack holds the gray nodes, and every successor an iterator has
      handed out is an edge seen. */
  ghost predicate Tracks<T(!new)>(g: Graph<T>, work: seq<Frame<T>>, gray: seq<T>, seen: set<(T, T)>) {
    && |work| == |gray|
    && (forall k :: 0 <= k < |work| ==> work[k].node == gray[k] && work[k].next <= |Succ(g, work[k].node)|)
    && (forall k, i :: 0 <= k < |work| && 0 <= i < work[k].next ==>
          (work[k].node, Succ(g, work[k].node)[i]) in seen)
  }

  /** What the loop returns: each node reachable from a start is listed exactly
      once, nothing else is, and components are the classes of mutual reachability. */
  ghost predicate IsPartition<T(!new)>(g: Graph<T>, starts: seq<T>, comps: seq<seq<T>>) {
    && (forall x :: Listed(comps, x) <==> ReachedFrom(g, starts, x))
    && NoRepeats(comps)
    && Classes(g, comps)
  }

  ghost function Universe<T>(g: Graph<T>, starts: seq<T>): set<T> {
    (set x | x in starts) + (set x, y | x in g && y in g[x] :: y)
  }

  /** Before any frame is pushed for a new start node, nothing is on the stack. */
  lemma IdleIsEmpty<T(!new)>(g: Graph<T>, s: State<T>)
    requires Inv(g, s) && s.gray == []
    ensures s.onStack == {}
  {
    hide Tables, Explored, ReachUp, LowSound, LowComplete, FinishedClosed, CompsOk, Rising;
    assert forall x :: x in s.onStack ==> Anchored(g, s.index, s.gray, x);
    assert forall x :: !Anchored(g, s.index, s.gray, x);
  }

  lemma PartitionFound<T(!new)>(g: Graph<T>, starts: seq<T>, s: State<T>)
    requires Inv(g, s) && s.gray == []
    requires Bounded(g, starts, s.index)
    requires forall i :: 0 <= i < |starts| ==> starts[i] in s.index
    ensures IsPartition(g, starts, s.comps)
  {
    hide Tables, Stacks, Explored, ReachUp, ReachDown, LowSound, LowComplete, NoRepeats, Classes, Reach, Listed;
    IdleIsEmpty(g, s);
    forall x ensures Listed(s.comps, x) <==> ReachedFrom(g, starts, x) {
      if ReachedFrom(g, starts, x) {
        var v :| v in starts && Reach(g, v, x);
        assert Finished(s.index, s.onStack, v);
        var done := set u | u in s.index;
        forall u, w | u in done && w in Succ(g, u) ensures w in done {
          assert Finished(s.index, s.onStack, u);
          assert Finished(s.index, s.onStack, w);
        }
        ClosedReach(g, done, v, x);
      }
    }
  }

  /** Inside the bounds of the search: only universe nodes get an index, and each
      of them is reachable from a start node. */
  ghost predicate Bounded<T(!new)>(g: Graph<T>, starts: seq<T>, index: Table<T>) {
    && index.Keys <= Universe(g, starts)
    && forall x :: x in index ==> ReachedFrom(g, starts, x)
  }

  lemma BoundedStart<T(!new)>(g: Graph<T>, starts: seq<T>, index: Table<T>, x: T, n: nat)
    requires Bounded(g, starts, index) && x in starts
    ensures Bounded(g, starts, index[x := n])
  {
    hide Reach;
    ReachRefl(g, x);
  }

  lemma BoundedStep<T(!new)>(g: Graph<T>, starts: seq<T>, index: Table<T>, x: T, z: T, n: nat)
    requires Bounded(g, starts, index) && x in index && z in Succ(g, x)
    ensures Bounded(g, starts, index[z := n])
    ensures z !in index ==> Universe(g, starts) - index[z := n].Keys < Universe(g, starts) - index.Keys
  {
    hide Reach;
    var v :| v in starts && Reach(g, v, x);
    ReachEdge(g, x, z);
    ReachTrans(g, v, x, z);
    assert ReachedFrom(g, starts, z);
    assert z in Universe(g, starts);
    assert z !in index ==> z in Universe(g, starts) - index.Keys && z !in Universe(g, starts) - index[z := n].Keys;
  }

  /** What the loop body needs to know about a state before it acts. */
  lemma TopFacts<T(!new)>(g: Graph<T>, s: State<T>)
    requires Inv(g, s)
    ensures s.low.Keys == s.index.Keys
    ensures forall k :: 0 <= k < |s.gray| ==> s.gray[k] in s.index
    ensures |s.gray| > 0 ==> s.low[Top(s)] <= s.index[Top(s)]
    ensures forall k :: 0 <= k < |s.gray| - 1 ==> s.gray[k] != Top(s)
  {
    hide Explored, ReachUp, ReachDown, LowSound, LowComplete, FinishedClosed, CompsOk;
  }

  lemma ChildCanEnter<T(!new)>(g: Graph<T>, s: State<T>, child: T)
    requires Inv(g, s) && |s.gray| > 0 && child in Succ(g, Top(s)) && child !in s.index
    ensures CanEnter(g, s, child, {(Top(s), child)})
  {
    hide Explored, ReachDown, LowSound, LowComplete, FinishedClosed, CompsOk, Tables, Reach;
    forall k | 0 <= k < |s.gray| ensures Reach(g, s.gray[k], child) {
      assert Below(s.index, s.gray[k], Top(s));
      ReachEdge(g, Top(s), child);
      ReachTrans(g, s.gray[k], Top(s), child);
    }
  }

  /** At a root the lowlink passed to the parent changes nothing. */
  lemma RootKeepsParent<T(!new)>(g: Graph<T>, s: State<T>)
    requires Inv(g, s) && |s.gray| > 1 && s.low.Keys == s.index.Keys
    requires forall k :: 0 <= k < |s.gray| ==> s.gray[k] in s.index
    requires s.low[Top(s)] == s.index[Top(s)]
    ensures Retreat(s).low == s.low
  {
    hide Explored, ReachUp, ReachDown, LowSound, LowComplete, FinishedClosed, CompsOk;
    var parent := s.gray[|s.gray| - 2];
    assert Min(s.low[parent], s.low[Top(s)]) == s.low[parent];
    assert s.low[parent := s.low[parent]] == s.low;
  }

  lemma RootStep<T(!new)>(g: Graph<T>, s: State<T>, low: Table<T>, p: nat, comp: seq<T>)
    requires Exhausted(g, s) && p < |s.stack| && s.stack[p] == Top(s)
    requires SameElements(comp, s.stack[p..])
    requires low == Retreat(s).low && Top(s) in low && low[Top(s)] == s.index[Top(s)]
    ensures low == s.low && Inv(g, Collapse(s, p, comp))
  {
    hide Explored, ReachUp, ReachDown, LowSound, LowComplete, FinishedClosed, CompsOk, Tables, Stacks, SameElements;
    TopFacts(g, s);
    if |s.gray| > 1 { RootKeepsParent(g, s); }
    CollapseKeeps(g, s, p, comp);
  }

  /** The stack from the finished root upwards becomes one component, top first. */
  method PopComponent<T(==, !new)>(stack: seq<T>, onStack: set<T>, root: T, ghost p: nat)
    returns (stack': seq<T>, onStack': set<T>, component: seq<T>)
    requires p < |stack| && stack[p] == root
    requires forall i, j :: 0 <= i < j < |stack| ==> stack[i] != stack[j]
    ensures stack' == stack[..p]
    ensures SameElements(component, stack[p..])
    ensures forall x :: x in onStack' <==> x in onStack && x !in stack[p..]
  {
    stack', onStack', component := stack, onStack, [];
    while true
      invariant p < |stack'| <= |stack| && stack' == stack[..|stack'|]
      invariant |component| == |stack| - |stack'|
      invariant forall i :: 0 <= i < |component| ==> component[i] == stack[|stack| - 1 - i]
      invariant forall x :: x in onStack' <==> x in onStack && x !in component
      decreases |stack'|
    {
      var member := stack'[|stack'| - 1];
      stack' := stack'[..|stack'| - 1];
      onStack' := onStack' - {member};
      component := component + [member];
      if member == root { break; }
    }
    ghost var above := stack[p..];
    forall x ensures x in component <==> x in above {
      if x in component {
        var i :| 0 <= i < |component| && component[i] == x;
        assert above[|above| - 1 - i] == x;
      }
      if x in above {
        var i :| 0 <= i < |above| && above[i] == x;
        assert component[|above| - 1 - i] == x;
      }
    }
  }

  lemma StartCanEnter<T(!new)>(g: Graph<T>, s: State<T>, start: T)
    requires Inv(g, s) && s.gray == [] && start !in s.index
    ensures CanEnter(g, s, start, {})
    ensures Tracks(g, [Frame(start, 0)], [start], s.seen)
  {
    hide Inv;
  }

  lemma TracksTop<T(!new)>(g: Graph<T>, work: seq<Frame<T>>, gray: seq<T>, seen: set<(T, T)>)
    requires Tracks(g, work, gray, seen)
    ensures |work| == |gray|
    ensures |work| > 0 ==> work[|work| - 1].node == gray[|work| - 1]
    ensures |work| > 0 ==> work[|work| - 1].next <= |Succ(g, gray[|work| - 1])|
    ensures |work| > 1 ==> work[|work| - 2].node == gray[|work| - 2]
    ensures |work| == 0 ==> gray == []
  {
  }

  /** The work stack after its top iterator has handed out a successor. */
  lemma TracksAdvance<T(!new)>(g: Graph<T>, work: seq<Frame<T>>, gray: seq<T>, seen: set<(T, T)>)
    requires Tracks(g, work, gray, seen) && |work| > 0
    requires work[|work| - 1].next < |Succ(g, work[|work| - 1].node)|
    ensures var f := work[|work| - 1];
            var child := Succ(g, f.node)[f.next];
            var advanced := work[|work| - 1 := Frame(f.node, f.next + 1)];
            && Tracks(g, advanced, gray, seen + {(f.node, child)})
            && Tracks(g, advanced + [Frame(child, 0)], gray + [child], seen + {(f.node, child)})
  {
  }

  lemma TracksPop<T(!new)>(g: Graph<T>, work: seq<Frame<T>>, gray: seq<T>, seen: set<(T, T)>)
    requires Tracks(g, work, gray, seen) && |work| > 0
    ensures Tracks(g, work[..|work| - 1], gray[..|work| - 1], seen)
  {
  }

  lemma ExhaustedTop<T(!new)>(g: Graph<T>, work: seq<Frame<T>>, s: State<T>)
    requires Inv(g, s) && Tracks(g, work, s.gray, s.seen) && |work| > 0
    requires work[|work| - 1].next == |Succ(g, work[|work| - 1].node)|
    ensures Exhausted(g, s)
  {
    hide Explored, ReachUp, ReachDown, LowSound, LowComplete, FinishedClosed, CompsOk;
  }

  lemma RootPosition<T(!new)>(g: Graph<T>, s: State<T>) returns (p: nat)
    requires Inv(g, s) && |s.gray| > 0
    ensures p < |s.stack| && s.stack[p] == Top(s)
    ensures forall i, j :: 0 <= i < j < |s.stack| ==> s.stack[i] != s.stack[j]
  {
    hide Explored, ReachUp, ReachDown, LowSound, LowComplete, FinishedClosed, CompsOk;
    assert s.gray[|s.gray| - 1] in s.onStack;
    assert Top(s) in s.stack;
    p :| 0 <= p < |s.stack| && s.stack[p] == Top(s);
  }

  /** The strongly connected components of everything reachable from nodeIds. */
  method StronglyConnectedComponents<T(==, !new)>(nodeIds: seq<T>, successors: Graph<T>)
    returns (components: seq<seq<T>>)
    ensures IsPartition(successors, nodeIds, components)
  {
    hide Inv, Bounded, IsPartition, SameElements, Reach, CanEnter, Exhausted, Tracks, Universe;
    var index: Table<T>, lowlink: Table<T>, counter := map[], map[], 0;
    var stack, onStack := [], {};
    components := [];
    ghost var seen := {};
    InitKeeps(successors, nodeIds);
    for n := 0 to |nodeIds|
      invariant Inv(successors, State(index, lowlink, counter, stack, onStack, [], seen, components))
      invariant Bounded(successors, nodeIds, index)
      invariant forall i :: 0 <= i < n ==> nodeIds[i] in index
    {
      var start := nodeIds[n];
      if start in index { continue; }
      ghost var s := State(index, lowlink, counter, stack, onStack, [], seen, components);
      StartCanEnter(successors, s, start);
      EnterKeeps(successors, s, start, {});
      BoundedStart(successors, nodeIds, index, start, counter);
      index, lowlink := index[start := counter], lowlink[start := counter];
      counter := counter + 1;
      stack, onStack := stack + [start], onStack + {start};
      var work := [Frame(start, 0)];
      ghost var gray := [start];
      assert State(index, lowlink, counter, stack, onStack, gray, seen, components) == Enter(s, start, {});
      while |work| > 0
        invariant Inv(successors, State(index, lowlink, counter, stack, onStack, gray, seen, components))
        invariant Tracks(successors, work, gray, seen)
        invariant Bounded(successors, nodeIds, index)
        invariant forall i :: 0 <= i <= n ==> nodeIds[i] in index
        decreases Universe(successors, nodeIds) - index.Keys, |work|,
                  if |work| == 0 then 0 else |Succ(successors, work[|work| - 1].node)| - work[|work| - 1].next
      {
        s := State(index, lowlink, counter, stack, onStack, gray, seen, components);
        TopFacts(successors, s);
        TracksTop(successors, work, gray, seen);
        var top := |work| - 1;
        var frame := work[top];
        if frame.next < |Succ(successors, frame.node)| {
          var child := Succ(successors, frame.node)[frame.next];
          TracksAdvance(successors, work, gray, seen);
          work := work[top := Frame(frame.node, frame.next + 1)];
          if child !in index {
            ChildCanEnter(successors, s, child);
            EnterKeeps(successors, s, child, {(frame.node, child)});
            BoundedStep(successors, nodeIds, index, frame.node, child, counter);
            index, lowlink := index[child := counter], lowlink[child := counter];
            counter := counter + 1;
            stack, onStack := stack + [child], onStack + {child};
            work := work + [Frame(child, 0)];
            gray := gray + [child];
          } else {
            LookBackKeeps(successors, s, child);
            if child in onStack {
              lowlink := lowlink[frame.node := Min(lowlink[frame.node], index[child])];
            }
          }
          seen := seen + {(frame.node, child)};
          continue;
        }
        ExhaustedTop(successors, work, s);
        TracksPop(successors, work, gray, seen);
        work := work[..top];
        gray := gray[..top];
        if |work| > 0 {
          var parent := work[|work| - 1].node;
          lowlink := lowlink[parent := Min(lowlink[parent], lowlink[frame.node])];
        }
        if lowlink[frame.node] == index[frame.node] {
          var component;
          ghost var p := RootPosition(successors, s);
          stack, onStack, component := PopComponent(stack, onStack, frame.node, p);
          components := components + [component];
          RootStep(successors, s, lowlink, p, component);
          assert onStack == Collapse(s, p, component).onStack;
        } else {
          RetreatKeeps(successors, s);
        }
      }
      TracksTop(successors, work, gray, seen);
    }
    PartitionFound(successors, nodeIds, State(index, lowlink, counter, stack, onStack, [], seen, components));
  }

  lemma InitKeeps<T(!new)>(g: Graph<T>, starts: seq<T>)
    ensures Inv(g, State(map[], map[], 0, [], {}, [], {}, []))
    ensures Bounded(g, starts, map[])
  {
  }

  // ------------------------------------------------------------------- cycles

  /** A component is reported when it has several members or its only member
      has an edge to itself. */
  predicate IsCycle<T(==)>(g: Graph<T>, comp: seq<T>) {
    |comp| > 1 || (|comp| == 1 && comp[0] in Succ(g, comp[0]))
  }

  function Cycles<T(==, !new)>(g: Graph<T>, comps: seq<seq<T>>): (cycles: seq<seq<T>>)
    ensures forall c :: c in cycles <==> c in comps && IsCycle(g, c)
  {
    if comps == [] then []
    else (if IsCycle(g, comps[0]) then [comps[0]] else []) + Cycles(g, comps[1..])
  }

  /** A node appears in a reported cycle exactly when it is reachable from a start
      and lies on a nonempty path back to itself. */
  lemma ReportedCyclesAreCycles<T(!new)>(g: Graph<T>, starts: seq<T>, comps: seq<seq<T>>, x: T)
    requires IsPartition(g, starts, comps)
    ensures Listed(Cycles(g, comps), x) <==> ReachedFrom(g, starts, x) && ReachPlus(g, x, x)
  {
    hide Reach, ReachPlus;
    if Listed(Cycles(g, comps), x) {
      var c := ListedIn(Cycles(g, comps), x);
      var a := IndexOf(comps, c);
      assert Listed(comps, x);
      CycleLoops(g, starts, comps, a, x);
    }
    if ReachedFrom(g, starts, x) && ReachPlus(g, x, x) {
      assert Listed(comps, x);
      var c := ListedIn(comps, x);
      var a := IndexOf(comps, c);
      LoopIsCycle(g, starts, comps, a, x);
      var k := IndexOf(Cycles(g, comps), c);
      assert x in Cycles(g, comps)[k];
    }
  }

  ghost predicate Together<T>(comps: seq<seq<T>>, x: T, y: T) {
    exists c :: c in comps && x in c && y in c
  }

  lemma PlusIsReach<T(!new)>(g: Graph<T>, x: T, y: T)
    ensures ReachPlus(g, x, y) ==> Reach(g, x, y)
  {
    ReachSplit(g, x, y);
  }

  lemma PlusThenBack<T(!new)>(g: Graph<T>, x: T, y: T)
    requires ReachPlus(g, x, y) && Reach(g, y, x)
    ensures ReachPlus(g, x, x)
  {
    hide Reach;
    var z :| z in Succ(g, x) && Reach(g, z, y);
    ReachTrans(g, z, y, x);
  }

  /** Two nodes appear in one reported cycle exactly when a start reaches them and a
      nonempty path leads from each to the other. */
  lemma SharedCyclesAreMutual<T(!new)>(g: Graph<T>, starts: seq<T>, comps: seq<seq<T>>, x: T, y: T)
    requires IsPartition(g, starts, comps)
    ensures Together(Cycles(g, comps), x, y) <==> ReachedFrom(g, starts, x) && ReachPlus(g, x, y) && ReachPlus(g, y, x)
  {
    hide Reach, ReachPlus, NoRepeats, IsCycle;
    ReachSplit(g, x, y);
    ReachSplit(g, y, x);
    if Together(Cycles(g, comps), x, y) {
      var c :| c in Cycles(g, comps) && x in c && y in c;
      var a := IndexOf(comps, c);
      assert Listed(comps, x) && Mutual(g, x, y);
      CycleLoops(g, starts, comps, a, x);
    }
    if ReachedFrom(g, starts, x) && ReachPlus(g, x, y) && ReachPlus(g, y, x) {
      PlusIsReach(g, x, y);
      PlusIsReach(g, y, x);
      PlusThenBack(g, x, y);
      ReachedThen(g, starts, x, y);
      assert Listed(comps, x) && Listed(comps, y);
      var a :| 0 <= a < |comps| && x in comps[a];
      var b :| 0 <= b < |comps| && y in comps[b];
      assert Mutual(g, x, y);
      assert a == b;
      LoopIsCycle(g, starts, comps, a, x);
    }
  }

  lemma ReachedThen<T(!new)>(g: Graph<T>, starts: seq<T>, x: T, y: T)
    requires ReachedFrom(g, starts, x) && Reach(g, x, y)
    ensures ReachedFrom(g, starts, y)
  {
    hide Reach;
    var v :| v in starts && Reach(g, v, x);
    ReachTrans(g, v, x, y);
  }

  lemma ListedIn<T>(comps: seq<seq<T>>, x: T) returns (c: seq<T>)
    requires Listed(comps, x)
    ensures c in comps && x in c
  {
    var a :| 0 <= a < |comps| && x in comps[a];
    c := comps[a];
  }

  lemma IndexOf<T>(comps: seq<seq<T>>, c: seq<T>) returns (a: nat)
    requires c in comps
    ensures a < |comps| && comps[a] == c
  {
    a :| 0 <= a < |comps| && comps[a] == c;
  }

  lemma CycleLoops<T(!new)>(g: Graph<T>, starts: seq<T>, comps: seq<seq<T>>, a: nat, x: T)
    requires IsPartition(g, starts, comps) && a < |comps| && x in comps[a] && IsCycle(g, comps[a])
    ensures ReachPlus(g, x, x)
  {
    hide Reach;
    if |comps[a]| == 1 {
      ReachRefl(g, x);
    } else {
      var i :| 0 <= i < |comps[a]| && comps[a][i] == x;
      var j := if i == 0 then 1 else 0;
      var y := comps[a][j];
      assert y != x && y in comps[a];
      assert Mutual(g, x, y);
      ReachSplit(g, x, y);
      var z :| z in Succ(g, x) && Reach(g, z, y);
      ReachTrans(g, z, y, x);
    }
  }

  lemma LoopIsCycle<T(!new)>(g: Graph<T>, starts: seq<T>, comps: seq<seq<T>>, a: nat, x: T)
    requires IsPartition(g, starts, comps) && a < |comps| && x in comps[a] && ReachPlus(g, x, x)
    ensures IsCycle(g, comps[a])
  {
    hide Reach, NoRepeats;
    var z :| z in Succ(g, x) && Reach(g, z, x);
    ReachEdge(g, x, z);
    assert ReachedFrom(g, starts, z) by {
      assert Listed(comps, x);
      ReachedThen(g, starts, x, z);
    }
    assert Listed(comps, z);
    var b :| 0 <= b < |comps| && z in comps[b];
    assert Mutual(g, x, z);
    assert a == b;
  }
}
