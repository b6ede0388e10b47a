// The replay window of an endpoint (_largestIncomingCounters) and the full
// history of accepted counters that it stands for.
module ReplayWindow {

  const KEEP_INCOMING_COUNTERS: nat := 64

  predicate Ascending(list: seq<nat>) {
    forall i, j | 0 <= i < j < |list| :: list[i] < list[j]
  }

  /** std::lower_bound: how many leading elements are below c. */
  function LowerBound(list: seq<nat>, c: nat): (p: nat)
    ensures p <= |list|
    ensures forall i | 0 <= i < p :: list[i] < c
    ensures p < |list| ==> c <= list[p]
  {
    if list == [] || c <= list[0] then 0 else 1 + LowerBound(list[1..], c)
  }

  /** How many leading elements fall out of the window when c enters it. */
  function CountStale(list: seq<nat>, c: nat): (e: nat)
    ensures e <= LowerBound(list, c)
    ensures forall i | 0 <= i < e :: list[i] + KEEP_INCOMING_COUNTERS <= c
    ensures e < |list| ==> c < list[e] + KEEP_INCOMING_COUNTERS
  {
    if list == [] || c < list[0] + KEEP_INCOMING_COUNTERS then 0 else 1 + CountStale(list[1..], c)
  }

  function Back(list: seq<nat>): nat {
    if list == [] then 0 else list[|list| - 1]
  }

  predicate Accepts(list: seq<nat>, c: nat) {
    var p := LowerBound(list, c);
    !(p < |list| && list[p] == c) && Back(list) < c + KEEP_INCOMING_COUNTERS
  }

  /** The list after a counter has been offered to it. */
  function Register(list: seq<nat>, c: nat): seq<nat> {
    if Accepts(list, c) then
      var p := LowerBound(list, c);
      list[CountStale(list, c)..p] + [c] + list[p..]
    else list
  }

  // --- The full history

  function Largest(history: seq<nat>): (m: nat)
    ensures forall i | 0 <= i < |history| :: history[i] <= m
    ensures m == 0 || m in history
  {
    if history == [] then 0
    else
      var m := Largest(history[..|history| - 1]);
      var c := history[|history| - 1];
      if m < c then c else m
  }

  /** The rule the window stands for: never accepted before, and less than 64 below the largest accepted. */
  predicate Fresh(history: seq<nat>, c: nat) {
    c !in history && Largest(history) < c + 64
  }

  ghost predicate Represents(list: seq<nat>, history: seq<nat>) {
    && Ascending(list)
    && Back(list) == Largest(history)
    && (forall a: int :: a in list <==> a in history && Largest(history) < a + KEEP_INCOMING_COUNTERS)
  }

  lemma {:induction false} LowerBoundFinds(list: seq<nat>, c: nat)
    requires Ascending(list)
    ensures c in list <==> LowerBound(list, c) < |list| && list[LowerBound(list, c)] == c
  {
    var p := LowerBound(list, c);
    assert forall i | p < i < |list| :: c < list[i];
  }

  lemma AcceptsIffFresh(list: seq<nat>, history: seq<nat>, c: nat)
    requires Represents(list, history)
    ensures Accepts(list, c) <==> Fresh(history, c)
  {
    LowerBoundFinds(list, c);
  }

  /** A counter put where it belongs, the first e elements dropped. */
  lemma SpliceKeepsAscending(list: seq<nat>, e: nat, p: nat, c: nat)
    requires Ascending(list) && e <= p <= |list|
    requires forall i | 0 <= i < p :: list[i] < c
    requires p < |list| ==> c < list[p]
    ensures Ascending(list[e..p] + [c] + list[p..])
  {
    assert forall i | p <= i < |list| :: c < list[i];
  }

  lemma RegisterKeepsAscending(list: seq<nat>, c: nat)
    requires Ascending(list)
    ensures Ascending(Register(list, c))
  {
    if Accepts(list, c) {
      SpliceKeepsAscending(list, CountStale(list, c), LowerBound(list, c), c);
    }
  }

  lemma SpliceContents(list: seq<nat>, e: nat, p: nat, c: nat, a: int)
    requires e <= p <= |list|
    ensures a in list[e..p] + [c] + list[p..] <==> a == c || a in list[e..]
  {
    assert list[e..] == list[e..p] + list[p..];
  }

  /** What is left of the window when c has pushed the stale counters out. */
  lemma KeptContents(list: seq<nat>, e: nat, c: nat, a: int)
    requires Ascending(list) && e <= |list|
    requires forall i | 0 <= i < e :: list[i] + KEEP_INCOMING_COUNTERS <= c
    requires e < |list| ==> c < list[e] + KEEP_INCOMING_COUNTERS
    ensures a in list[e..] <==> a in list && c < a + KEEP_INCOMING_COUNTERS
  {
    assert list == list[..e] + list[e..];
    assert forall i | e <= i < |list| :: list[e] <= list[i];
  }

  lemma RegisterContents(list: seq<nat>, c: nat, a: int)
    requires Ascending(list) && Accepts(list, c)
    ensures a in Register(list, c) <==> a == c || (a in list && c < a + KEEP_INCOMING_COUNTERS)
  {
    var e := CountStale(list, c);
    KeptContents(list, e, c, a);
    SpliceContents(list, e, LowerBound(list, c), c, a);
  }

  lemma RegisterRepresents(list: seq<nat>, history: seq<nat>, c: nat)
    requires Represents(list, history) && Accepts(list, c)
    ensures Represents(Register(list, c), history + [c])
  {
    var next, history' := Register(list, c), history + [c];
    RegisterKeepsAscending(list, c);
    assert history'[..|history|] == history;
    assert Back(next) == Largest(history') by {
      var p := LowerBound(list, c);
      assert p == |list| ==> Back(next) == c;
      assert p < |list| ==> Back(next) == Back(list) && c < list[p] <= Back(list);
    }
    forall a: int
      ensures a in next <==> a in history' && Largest(history') < a + KEEP_INCOMING_COUNTERS
    {
      RegisterContents(list, c, a);
    }
  }

  lemma AscendingSpread(list: seq<nat>, k: nat)
    requires Ascending(list) && k < |list|
    ensures list[0] + k <= list[k]
  {
    if k > 0 {
      AscendingSpread(list, k - 1);
      assert list[k - 1] < list[k];
    }
  }

  lemma WindowIsShort(list: seq<nat>, history: seq<nat>)
    requires Represents(list, history)
    ensures |list| <= KEEP_INCOMING_COUNTERS
  {
    if list != [] {
      AscendingSpread(list, |list| - 1);
      assert list[0] in list;
    }
  }

  // --- Whole runs

  datatype Verdicts = Verdicts(state: seq<nat>, verdicts: seq<bool>)

  function WindowRun(list: seq<nat>, offered: seq<nat>): Verdicts
    decreases |offered|
  {
    if offered == [] then Verdicts(list, [])
    else
      var r := WindowRun(Register(list, offered[0]), offered[1..]);
      Verdicts(r.state, [Accepts(list, offered[0])] + r.verdicts)
  }

  function HistoryRun(history: seq<nat>, offered: seq<nat>): Verdicts
    decreases |offered|
  {
    if offered == [] then Verdicts(history, [])
    else
      var accepted := Fresh(history, offered[0]);
      var r := HistoryRun(if accepted then history + [offered[0]] else history, offered[1..]);
      Verdicts(r.state, [accepted] + r.verdicts)
  }

  lemma {:induction false} RunRefines(list: seq<nat>, history: seq<nat>, offered: seq<nat>)
    requires Represents(list, history)
    ensures WindowRun(list, offered).verdicts == HistoryRun(history, offered).verdicts
    ensures Represents(WindowRun(list, offered).state, HistoryRun(history, offered).state)
    decreases |offered|
  {
    if offered != [] {
      var c := offered[0];
      AcceptsIffFresh(list, history, c);
      if Accepts(list, c) {
        RegisterRepresents(list, history, c);
        RunRefines(Register(list, c), history + [c], offered[1..]);
      } else {
        RunRefines(list, history, offered[1..]);
      }
    }
  }

  /** From the empty window: over any run of offered counters the verdicts are those of the
      full-history rule, the list is ascending, has at most 64 elements, and holds exactly the
      accepted counters less than 64 below the largest one. */
  lemma {:induction false} WindowRefinesHistory(offered: seq<nat>)
    ensures WindowRun([], offered).verdicts == HistoryRun([], offered).verdicts
    ensures |WindowRun([], offered).state| <= 64
    ensures Represents(WindowRun([], offered).state, HistoryRun([], offered).state)
  {
    RunRefines([], [], offered);
    WindowIsShort(WindowRun([], offered).state, HistoryRun([], offered).state);
  }
}
