// Next-match selection and the fairness of every run of matches.
module Matchmaker {
  type Agent = string

  // A past match, as the agents that took part.
  type Record = seq<Agent>

  datatype Plan = TooFewAgents | Seats(bySeat: seq<Agent>)

  // ------------------------------------------------ shuffling

  function Swap<T>(s: seq<T>, i: nat, j: nat): (r: seq<T>)
    requires i < |s| && j < |s|
    ensures |r| == |s|
    ensures multiset(r) == multiset(s)
  {
    s[i := s[j]][j := s[i]]
  }

  // The Fisher-Yates shuffle from position i downwards; draw(k) is the index drawn at position k.
  function ShuffleFrom<T>(s: seq<T>, draw: nat -> nat, i: nat): (r: seq<T>)
    requires i < |s| && forall k: nat :: draw(k) <= k
    ensures |r| == |s|
    ensures multiset(r) == multiset(s)
    decreases i
  {
    if i == 0 then s else ShuffleFrom(Swap(s, i, draw(i)), draw, i - 1)
  }

  function Shuffled<T>(s: seq<T>, draw: nat -> nat): (r: seq<T>)
    requires forall k: nat :: draw(k) <= k
    ensures |r| == |s|
    ensures multiset(r) == multiset(s)
  {
    if s == [] then s else ShuffleFrom(s, draw, |s| - 1)
  }

  // SeededRng.shuffle.
  method Shuffle<T>(items: seq<T>, draw: nat -> nat) returns (r: seq<T>)
    requires forall k: nat :: draw(k) <= k
    ensures r == Shuffled(items, draw)
  {
    hide ShuffleFrom;
    r := items;
    ShuffleEnds(items, draw);
    var i := |r| - 1;
    while i > 0
      invariant -1 <= i < |r| == |items|
      invariant items != [] ==> i >= 0 && ShuffleFrom(r, draw, i) == Shuffled(items, draw)
      invariant items == [] ==> r == []
    {
      var j := draw(i);
      ShuffleStep(r, draw, i);
      r := r[i := r[j]][j := r[i]];
      i := i - 1;
    }
    ShuffleEnds(r, draw);
  }

  lemma ShuffleEnds<T>(s: seq<T>, draw: nat -> nat)
    requires forall k: nat :: draw(k) <= k
    ensures s == [] ==> Shuffled(s, draw) == s
    ensures s != [] ==> Shuffled(s, draw) == ShuffleFrom(s, draw, |s| - 1) && ShuffleFrom(s, draw, 0) == s
  {
  }

  lemma ShuffleStep<T>(s: seq<T>, draw: nat -> nat, i: nat)
    requires 0 < i < |s| && forall k: nat :: draw(k) <= k
    ensures ShuffleFrom(s, draw, i) == ShuffleFrom(s[i := s[draw(i)]][draw(i) := s[i]], draw, i - 1)
  {
  }

  // ------------------------------------------------ counting

  function Occurrences(record: Record, a: Agent): nat
  {
    if record == [] then 0
    else Occurrences(record[..|record| - 1], a) + if record[|record| - 1] == a then 1 else 0
  }

  function Plays(history: seq<Record>, a: Agent): nat
  {
    if history == [] then 0
    else Plays(history[..|history| - 1], a) + Occurrences(history[|history| - 1], a)
  }

  method CountPlays(roster: seq<Agent>, history: seq<Record>) returns (counts: map<Agent, nat>)
    ensures counts.Keys == set a | a in roster
    ensures forall a :: a in counts ==> counts[a] == Plays(history, a)
  {
    counts := map a | a in roster :: 0;
    for i := 0 to |history|
      invariant counts.Keys == set a | a in roster
      invariant forall a :: a in counts ==> counts[a] == Plays(history[..i], a)
    {
      var record := history[i];
      ghost var before := counts;
      for j := 0 to |record|
        invariant counts.Keys == before.Keys
        invariant forall a :: a in counts ==> counts[a] == before[a] + Occurrences(record[..j], a)
      {
        assert record[..j + 1][..j] == record[..j];
        if record[j] in counts { counts := counts[record[j] := counts[record[j]] + 1]; }
      }
      assert record[..|record|] == record;
      assert history[..i + 1][..i] == history[..i];
    }
    assert history[..|history|] == history;
  }

  // ------------------------------------------------ sorting by play count

  function Insert(a: Agent, s: seq<Agent>, history: seq<Record>): (r: seq<Agent>)
    ensures multiset(r) == multiset(s) + multiset{a}
  {
    if s == [] || Plays(history, a) <= Plays(history, s[0]) then [a] + s
    else
      assert s == [s[0]] + s[1..];
      [s[0]] + Insert(a, s[1..], history)
  }

  // Sorting by ascending play count; equal counts keep their order.
  function LeastPlayedFirst(s: seq<Agent>, history: seq<Record>): (r: seq<Agent>)
    ensures multiset(r) == multiset(s)
  {
    if s == [] then []
    else
      assert s == [s[0]] + s[1..];
      Insert(s[0], LeastPlayedFirst(s[1..], history), history)
  }

  predicate Ascending(s: seq<Agent>, history: seq<Record>)
  {
    forall i, j :: 0 <= i < j < |s| ==> Plays(history, s[i]) <= Plays(history, s[j])
  }

  lemma {:induction false} InsertedFrom(a: Agent, s: seq<Agent>, history: seq<Record>, k: nat)
    requires k < |Insert(a, s, history)|
    ensures Insert(a, s, history)[k] == a || Insert(a, s, history)[k] in s
  {
    hide Plays;
    if s != [] && Plays(history, a) > Plays(history, s[0]) && k > 0 { InsertedFrom(a, s[1..], history, k - 1); }
  }

  lemma {:induction false} InsertAscends(a: Agent, s: seq<Agent>, history: seq<Record>)
    requires Ascending(s, history)
    ensures Ascending(Insert(a, s, history), history)
  {
    hide Plays;
    if s != [] && Plays(history, a) > Plays(history, s[0]) {
      InsertAscends(a, s[1..], history);
      var r := Insert(a, s[1..], history);
      forall k | 0 <= k < |r| ensures Plays(history, s[0]) <= Plays(history, r[k]) {
        InsertedFrom(a, s[1..], history, k);
      }
    }
  }

  lemma {:induction false} SortAscends(s: seq<Agent>, history: seq<Record>)
    ensures Ascending(LeastPlayedFirst(s, history), history)
    decreases |s|
  {
    if s != [] {
      SortAscends(s[1..], history);
      InsertAscends(s[0], LeastPlayedFirst(s[1..], history), history);
    }
  }

  // The agents of s with exactly c plays, in order.
  function WithPlays(s: seq<Agent>, history: seq<Record>, c: nat): seq<Agent>
  {
    if s == [] then []
    else (if Plays(history, s[0]) == c then [s[0]] else []) + WithPlays(s[1..], history, c)
  }

  // Agents with equally many plays stay in the order the shuffle left them in.
  lemma {:induction false} SortIsStable(s: seq<Agent>, history: seq<Record>, c: nat)
    ensures WithPlays(LeastPlayedFirst(s, history), history, c) == WithPlays(s, history, c)
    decreases |s|
  {
    if s != [] {
      SortIsStable(s[1..], history, c);
      SortAscends(s[1..], history);
      InsertIsStable(s[0], LeastPlayedFirst(s[1..], history), history, c);
    }
  }

  lemma {:induction false} InsertIsStable(a: Agent, s: seq<Agent>, history: seq<Record>, c: nat)
    requires Ascending(s, history)
    ensures WithPlays(Insert(a, s, history), history, c) == Kept(a, history, c) + WithPlays(s, history, c)
  {
    hide Plays, WithPlays, Ascending;
    if s == [] || Plays(history, a) <= Plays(history, s[0]) {
      WithPlaysHead(a, s, history, c);
    } else {
      TailAscends(s, history);
      InsertIsStable(a, s[1..], history, c);
      WithPlaysHead(s[0], Insert(a, s[1..], history), history, c);
      WithPlaysHead(s[0], s[1..], history, c);
      assert s == [s[0]] + s[1..];
      KeptOnce(a, s[0], history, c);
    }
  }

  // The agent alone if it has c plays.
  function Kept(a: Agent, history: seq<Record>, c: nat): seq<Agent>
  {
    if Plays(history, a) == c then [a] else []
  }

  lemma WithPlaysHead(a: Agent, s: seq<Agent>, history: seq<Record>, c: nat)
    ensures WithPlays([a] + s, history, c) == Kept(a, history, c) + WithPlays(s, history, c)
  {
    assert ([a] + s)[1..] == s;
  }

  lemma TailAscends(s: seq<Agent>, history: seq<Record>)
    requires s != [] && Ascending(s, history)
    ensures Ascending(s[1..], history)
  {
  }

  // Agents with different counts are not both kept.
  lemma KeptOnce(a: Agent, b: Agent, history: seq<Record>, c: nat)
    requires Plays(history, a) != Plays(history, b)
    ensures forall rest ::
              Kept(b, history, c) + (Kept(a, history, c) + rest) == Kept(a, history, c) + (Kept(b, history, c) + rest)
  {
    hide Plays;
  }

  // ------------------------------------------------ the next match

  function Seated(selected: seq<Agent>, perm: seq<nat>): seq<Agent>
    requires Permutes(perm, |selected|)
  {
    seq(|perm|, i requires 0 <= i < |perm| => selected[perm[i]])
  }

  function Indices(n: nat): seq<nat>
  {
    seq(n, i => i)
  }

  predicate Permutes(perm: seq<nat>, n: nat)
  {
    && |perm| == n
    && (forall i :: 0 <= i < n ==> perm[i] < n)
    && multiset(perm) == multiset(Indices(n))
  }

  lemma ShuffledIndices(n: nat, draw: nat -> nat)
    requires forall k: nat :: draw(k) <= k
    ensures Permutes(Shuffled(Indices(n), draw), n)
  {
    var perm := Shuffled(Indices(n), draw);
    hide Shuffled;
    forall i | 0 <= i < n ensures perm[i] < n {
      assert perm[i] in multiset(Indices(n));
      var k :| 0 <= k < n && Indices(n)[k] == perm[i];
      assert Indices(n)[k] == k;
    }
  }

  function NextMatchSeats(roster: seq<Agent>, history: seq<Record>, playerCount: nat,
                          rosterDraw: nat -> nat, seatDraw: nat -> nat): Plan
    requires forall k: nat :: rosterDraw(k) <= k && seatDraw(k) <= k
  {
    if |roster| < playerCount then TooFewAgents
    else
      var sorted := LeastPlayedFirst(Shuffled(roster, rosterDraw), history);
      SameLength(sorted, roster);
      ShuffledIndices(playerCount, seatDraw);
      Seats(Seated(sorted[..playerCount], Shuffled(Indices(playerCount), seatDraw)))
  }

  // next_match; the two draw functions stand for the seeded generator.
  method NextMatch(roster: seq<Agent>, history: seq<Record>, playerCount: nat,
                   rosterDraw: nat -> nat, seatDraw: nat -> nat) returns (plan: Plan)
    requires playerCount > 0
    requires forall k: nat :: rosterDraw(k) <= k && seatDraw(k) <= k
    ensures plan == NextMatchSeats(roster, history, playerCount, rosterDraw, seatDraw)
    ensures plan.TooFewAgents? <==> |roster| < playerCount
    ensures plan.Seats? && Distinct(roster) ==> FairPick(roster, history, playerCount, plan.bySeat)
  {
    if |roster| < playerCount { return TooFewAgents; }
    PlanInParts(roster, history, playerCount, rosterDraw, seatDraw);
    hide *;
    var counts := CountPlays(roster, history);
    var shuffled := Shuffle(roster, rosterDraw);
    SameElements(shuffled, roster);
    var sorted := SortByCount(shuffled, counts, history);
    var selected := sorted[..playerCount];
    var perm := Shuffle(Indices(playerCount), seatDraw);
    plan := Seats(Seated(selected, perm));
    if Distinct(roster) {
      PlanIsFair(roster, history, playerCount, rosterDraw, seatDraw);
    }
  }

  lemma PlanInParts(roster: seq<Agent>, history: seq<Record>, n: nat, rosterDraw: nat -> nat, seatDraw: nat -> nat)
    requires n <= |roster| && forall k: nat :: rosterDraw(k) <= k && seatDraw(k) <= k
    ensures var (sorted, perm) := (LeastPlayedFirst(Shuffled(roster, rosterDraw), history),
                                   Shuffled(Indices(n), seatDraw));
            && |sorted| == |roster| && Permutes(perm, n)
            && NextMatchSeats(roster, history, n, rosterDraw, seatDraw) == Seats(Seated(sorted[..n], perm))
  {
    SameLength(LeastPlayedFirst(Shuffled(roster, rosterDraw), history), roster);
    ShuffledIndices(n, seatDraw);
    hide Shuffled, LeastPlayedFirst, Plays, Indices, Permutes, Seated;
  }

  lemma SameElements(s: seq<Agent>, t: seq<Agent>)
    requires multiset(s) == multiset(t)
    ensures forall a :: a in s <==> a in t
  {
    assert forall a :: a in s <==> a in multiset(s);
    assert forall a :: a in t <==> a in multiset(t);
  }

  // sorted(shuffled, key = play count), reading the counts gathered before.
  function SortByCount(s: seq<Agent>, counts: map<Agent, nat>, ghost history: seq<Record>): (r: seq<Agent>)
    requires forall a :: a in s ==> a in counts && counts[a] == Plays(history, a)
    ensures r == LeastPlayedFirst(s, history)
  {
    if s == [] then []
    else
      var rest := SortByCount(s[1..], counts, history);
      assert s == [s[0]] + s[1..];
      assert multiset(rest) == multiset(s[1..]);
      assert forall a :: a in rest ==> a in multiset(s[1..]);
      InsertByCount(s[0], rest, counts, history)
  }

  function InsertByCount(a: Agent, s: seq<Agent>, counts: map<Agent, nat>, ghost history: seq<Record>): (r: seq<Agent>)
    requires forall b :: b == a || b in s ==> b in counts && counts[b] == Plays(history, b)
    ensures r == Insert(a, s, history)
  {
    if s == [] || counts[a] <= counts[s[0]] then [a] + s else [s[0]] + InsertByCount(a, s[1..], counts, history)
  }

  // ------------------------------------------------ what a pick promises

  predicate Distinct<T(==)>(s: seq<T>)
  {
    forall i, j :: 0 <= i < j < |s| ==> s[i] != s[j]
  }

  // Every seat holds a different roster agent, and nobody left out has played less than
  // somebody seated.
  predicate FairPick(roster: seq<Agent>, history: seq<Record>, playerCount: nat, seats: seq<Agent>)
  {
    && |seats| == playerCount
    && Distinct(seats)
    && (forall a :: a in seats ==> a in roster)
    && (forall a, b :: a in seats && b in roster && b !in seats ==> Plays(history, a) <= Plays(history, b))
  }

  lemma DistinctByMultiset<T>(s: seq<T>)
    ensures Distinct(s) <==> forall x :: multiset(s)[x] <= 1
    decreases |s|
  {
    if s != [] {
      var p, x := s[..|s| - 1], s[|s| - 1];
      assert s == p + [x];
      DistinctByMultiset(p);
      if Distinct(s) {
        assert forall i, j :: 0 <= i < j < |p| ==> p[i] != p[j];
        assert x !in p;
        assert forall y :: multiset(s)[y] == multiset(p)[y] + multiset{x}[y];
      }
      if forall y :: multiset(s)[y] <= 1 {
        assert forall y :: multiset(p)[y] <= multiset(s)[y];
        assert multiset(p)[x] == 0;
        assert x !in multiset(p);
        assert forall i :: 0 <= i < |p| ==> p[i] in multiset(p);
      }
    }
  }

  lemma DistinctPermuted<T>(s: seq<T>, t: seq<T>)
    requires Distinct(s) && multiset(s) == multiset(t)
    ensures Distinct(t)
  {
    DistinctByMultiset(s);
    DistinctByMultiset(t);
  }

  lemma SameLength<T>(s: seq<T>, t: seq<T>)
    requires multiset(s) == multiset(t)
    ensures |s| == |t|
  {
    assert |multiset(s)| == |s| && |multiset(t)| == |t|;
  }

  lemma IndicesDistinct(n: nat)
    ensures Distinct(Indices(n))
  {
  }

  lemma PlanIsFair(roster: seq<Agent>, history: seq<Record>, playerCount: nat,
                   rosterDraw: nat -> nat, seatDraw: nat -> nat)
    requires Distinct(roster) && playerCount <= |roster|
    requires forall k: nat :: rosterDraw(k) <= k && seatDraw(k) <= k
    ensures NextMatchSeats(roster, history, playerCount, rosterDraw, seatDraw).Seats?
    ensures FairPick(roster, history, playerCount,
                     NextMatchSeats(roster, history, playerCount, rosterDraw, seatDraw).bySeat)
  {
    var shuffled := Shuffled(roster, rosterDraw);
    var sorted := LeastPlayedFirst(shuffled, history);
    SameLength(sorted, roster);
    SortAscends(shuffled, history);
    hide Shuffled, LeastPlayedFirst, Plays, Indices, FairPick, Distinct, Ascending, Permutes, Seated;
    DistinctPermuted(roster, sorted);
    var perm := Shuffled(Indices(playerCount), seatDraw);
    ShuffledIndices(playerCount, seatDraw);
    IndicesDistinct(playerCount);
    DistinctPermuted(Indices(playerCount), perm);
    SeatedIsFair(roster, history, sorted, playerCount, perm);
  }

  lemma SeatedIsFair(roster: seq<Agent>, history: seq<Record>, sorted: seq<Agent>, n: nat, perm: seq<nat>)
    requires multiset(sorted) == multiset(roster) && Distinct(sorted) && Ascending(sorted, history)
    requires n <= |sorted| && Distinct(perm) && Permutes(perm, n)
    ensures FairPick(roster, history, n, Seated(sorted[..n], perm))
  {
    var seats := Seated(sorted[..n], perm);
    assert forall i :: 0 <= i < n ==> seats[i] == sorted[perm[i]];
    forall a | a in seats ensures a in roster {
      assert a in multiset(sorted);
    }
    forall j | 0 <= j < n ensures sorted[j] in seats { SelectedIsSeated(sorted, n, perm, j); }
    forall a, b | a in seats && b in roster && b !in seats ensures Plays(history, a) <= Plays(history, b) {
      var i :| 0 <= i < n && seats[i] == a;
      assert b in multiset(sorted);
      var j :| 0 <= j < |sorted| && sorted[j] == b;
      assert j >= n;
      assert Plays(history, sorted[perm[i]]) <= Plays(history, sorted[j]);
    }
  }

  lemma SelectedIsSeated(sorted: seq<Agent>, n: nat, perm: seq<nat>, j: nat)
    requires n <= |sorted| && Permutes(perm, n) && j < n
    ensures sorted[j] in Seated(sorted[..n], perm)
  {
    assert Indices(n)[j] == j;
    assert j in multiset(perm);
    var q :| 0 <= q < n && perm[q] == j;
    assert Seated(sorted[..n], perm)[q] == sorted[j];
  }

  // ------------------------------------------------ whole runs

  // Any two roster agents' play counts differ by at most d.
  predicate SpreadAtMost(roster: seq<Agent>, history: seq<Record>, d: nat)
  {
    forall a, b :: a in roster && b in roster ==> Plays(history, a) <= Plays(history, b) + d
  }

  // A run plays the plan of every call and appends it to the history the next call sees.
  ghost predicate PlannedRun(roster: seq<Agent>, start: seq<Record>, matches: seq<Record>, n: nat)
  {
    forall i :: 0 <= i < |matches| ==> FairPick(roster, start + matches[..i], n, matches[i])
  }

  lemma OneMatchKeepsSpread(roster: seq<Agent>, history: seq<Record>, n: nat, seats: Record, d: nat)
    requires FairPick(roster, history, n, seats) && SpreadAtMost(roster, history, d) && d >= 1
    ensures SpreadAtMost(roster, history + [seats], d)
  {
    forall a ensures Plays(history + [seats], a) == Plays(history, a) + if a in seats then 1 else 0 {
      assert (history + [seats])[..|history|] == history;
      OccurrencesOfDistinct(seats, a);
    }
  }

  lemma {:induction false} OccurrencesOfDistinct(s: seq<Agent>, a: Agent)
    requires Distinct(s)
    ensures Occurrences(s, a) == if a in s then 1 else 0
  {
    if s != [] {
      var p := s[..|s| - 1];
      assert s == p + [s[|s| - 1]];
      OccurrencesOfDistinct(p, a);
    }
  }

  // From any history the spread never rises above the larger of its old value and 1.
  lemma {:induction false} SpreadNeverGrows(roster: seq<Agent>, start: seq<Record>, matches: seq<Record>, n: nat,
                                            d: nat)
    requires PlannedRun(roster, start, matches, n) && SpreadAtMost(roster, start, d)
    ensures SpreadAtMost(roster, start + matches, if d >= 1 then d else 1)
    decreases |matches|
  {
    if matches == [] {
      assert start + matches == start;
    } else {
      var p, last := matches[..|matches| - 1], matches[|matches| - 1];
      assert PlannedRun(roster, start, p, n) by {
        assert forall i :: 0 <= i < |p| ==> p[..i] == matches[..i] && p[i] == matches[i];
      }
      SpreadNeverGrows(roster, start, p, n, d);
      OneMatchKeepsSpread(roster, start + p, n, last, if d >= 1 then d else 1);
      assert start + matches == (start + p) + [last];
    }
  }

  function TotalPlays(roster: seq<Agent>, history: seq<Record>): nat
  {
    if roster == [] then 0
    else TotalPlays(roster[..|roster| - 1], history) + Plays(history, roster[|roster| - 1])
  }

  // From an empty history, after m matches of n seats every agent of a roster of R has played
  // floor(m*n/R) or ceil(m*n/R) times.
  lemma EveryAgentGetsItsShare(roster: seq<Agent>, matches: seq<Record>, n: nat, a: Agent)
    requires Distinct(roster) && a in roster && PlannedRun(roster, [], matches, n)
    ensures var total := |matches| * n;
            total / |roster| <= Plays(matches, a) <= (total + |roster| - 1) / |roster|
  {
    hide *;
    SpreadOfRun(roster, matches, n);
    RunTotal(roster, matches, n);
    ShareFromTotal(roster, matches, a);
  }

  lemma SpreadOfRun(roster: seq<Agent>, matches: seq<Record>, n: nat)
    requires PlannedRun(roster, [], matches, n)
    ensures SpreadAtMost(roster, matches, 1)
  {
    assert SpreadAtMost(roster, [], 0);
    SpreadNeverGrows(roster, [], matches, n, 0);
    assert [] + matches == matches;
  }

  lemma ShareFromTotal(roster: seq<Agent>, history: seq<Record>, a: Agent)
    requires a in roster && SpreadAtMost(roster, history, 1)
    ensures var total := TotalPlays(roster, history);
            total / |roster| <= Plays(history, a) <= (total + |roster| - 1) / |roster|
  {
    hide Plays, Occurrences, TotalPlays;
    var c: int := Plays(history, a);
    TotalAtLeast(roster, history, c - 1, a);
    TotalAtMost(roster, history, c + 1, a);
    QuotientBounds(TotalPlays(roster, history), |roster|, c);
  }

  // A season calls NextMatch again and again, each time with the history so far; the generator may
  // draw anything for any match.
  ghost predicate Season(roster: seq<Agent>, start: seq<Record>, matches: seq<Record>, n: nat,
                         rosterDraw: nat -> nat -> nat, seatDraw: nat -> nat -> nat)
    requires forall i: nat, k: nat :: rosterDraw(i)(k) <= k && seatDraw(i)(k) <= k
  {
    forall i: nat :: i < |matches| ==>
      NextMatchSeats(roster, start + matches[..i], n, rosterDraw(i), seatDraw(i)) == Seats(matches[i])
  }

  // In every season two agents' play counts never drift further apart than they were, or than 1;
  // and a season from an empty history gives everybody the same share up to rounding.
  lemma SeasonsAreFair(roster: seq<Agent>, start: seq<Record>, matches: seq<Record>, n: nat,
                       rosterDraw: nat -> nat -> nat, seatDraw: nat -> nat -> nat, d: nat)
    requires forall i: nat, k: nat :: rosterDraw(i)(k) <= k && seatDraw(i)(k) <= k
    requires Distinct(roster) && SpreadAtMost(roster, start, d)
    requires Season(roster, start, matches, n, rosterDraw, seatDraw)
    ensures SpreadAtMost(roster, start + matches, if d >= 1 then d else 1)
    ensures start == [] ==> forall a :: a in roster ==>
              var total := |matches| * n;
              total / |roster| <= Plays(matches, a) <= (total + |roster| - 1) / |roster|
  {
    hide Plays, Distinct, FairPick, NextMatchSeats, SpreadAtMost;
    SeasonIsPlanned(roster, start, matches, n, rosterDraw, seatDraw);
    SpreadNeverGrows(roster, start, matches, n, d);
    if start == [] {
      forall a | a in roster
        ensures var total := |matches| * n;
                total / |roster| <= Plays(matches, a) <= (total + |roster| - 1) / |roster|
      {
        hide *;
        EveryAgentGetsItsShare(roster, matches, n, a);
      }
    }
  }

  lemma SeasonIsPlanned(roster: seq<Agent>, start: seq<Record>, matches: seq<Record>, n: nat,
                        rosterDraw: nat -> nat -> nat, seatDraw: nat -> nat -> nat)
    requires forall i: nat, k: nat :: rosterDraw(i)(k) <= k && seatDraw(i)(k) <= k
    requires Distinct(roster) && Season(roster, start, matches, n, rosterDraw, seatDraw)
    ensures PlannedRun(roster, start, matches, n)
  {
    forall i | 0 <= i < |matches| ensures FairPick(roster, start + matches[..i], n, matches[i]) {
      var history := start + matches[..i];
      assert NextMatchSeats(roster, history, n, rosterDraw(i), seatDraw(i)) == Seats(matches[i]);
      TooFewIff(roster, history, n, rosterDraw(i), seatDraw(i));
      hide NextMatchSeats, FairPick, Distinct;
      PlanIsFair(roster, history, n, rosterDraw(i), seatDraw(i));
    }
  }

  lemma TooFewIff(roster: seq<Agent>, history: seq<Record>, n: nat, rosterDraw: nat -> nat, seatDraw: nat -> nat)
    requires forall k: nat :: rosterDraw(k) <= k && seatDraw(k) <= k
    ensures NextMatchSeats(roster, history, n, rosterDraw, seatDraw).TooFewAgents? <==> |roster| < n
  {
  }

  lemma QuotientBounds(total: nat, size: nat, plays: nat)
    requires size > 0
    requires size * (plays - 1) < total < size * (plays + 1)
    ensures total / size <= plays <= (total + size - 1) / size
  {
    var low, high := total / size, (total + size - 1) / size;
    assert size * low <= total;
    CancelFactor(size, low, plays + 1);
    assert size * (plays - 1) == size * plays - size;
    assert total + size - 1 < size * (high + 1);
    CancelFactor(size, plays, high + 1);
  }

  lemma CancelFactor(size: nat, a: int, b: int)
    ensures size * a < size * b ==> a < b
  {
    if a >= b { assert size * (a - b) >= 0; }
  }

  lemma OneMore(n: nat, c: int)
    ensures (n + 1) * c == n * c + c
  {
  }

  lemma {:induction false} TotalAtLeast(roster: seq<Agent>, history: seq<Record>, c: int, a: Agent)
    requires forall b :: b in roster ==> c <= Plays(history, b)
    requires c < Plays(history, a)
    ensures |roster| * c <= TotalPlays(roster, history)
    ensures a in roster ==> |roster| * c < TotalPlays(roster, history)
  {
    hide Plays, Occurrences;
    if roster != [] {
      var p := roster[..|roster| - 1];
      assert roster == p + [roster[|roster| - 1]];
      TotalAtLeast(p, history, c, a);
      OneMore(|p|, c);
    }
  }

  lemma {:induction false} TotalAtMost(roster: seq<Agent>, history: seq<Record>, c: int, a: Agent)
    requires forall b :: b in roster ==> Plays(history, b) <= c
    requires Plays(history, a) < c
    ensures TotalPlays(roster, history) <= |roster| * c
    ensures a in roster ==> TotalPlays(roster, history) < |roster| * c
  {
    hide Plays, Occurrences;
    if roster != [] {
      var p := roster[..|roster| - 1];
      assert roster == p + [roster[|roster| - 1]];
      TotalAtMost(p, history, c, a);
      OneMore(|p|, c);
    }
  }

  // Every match adds exactly n plays over the roster.
  lemma {:induction false} RunTotal(roster: seq<Agent>, matches: seq<Record>, n: nat)
    requires Distinct(roster) && PlannedRun(roster, [], matches, n)
    ensures TotalPlays(roster, matches) == |matches| * n
    decreases |matches|
  {
    if matches == [] {
      NoPlays(roster);
    } else {
      var p, last := matches[..|matches| - 1], matches[|matches| - 1];
      assert matches == p + [last];
      assert PlannedRun(roster, [], p, n) by {
        assert forall i :: 0 <= i < |p| ==> p[..i] == matches[..i] && p[i] == matches[i];
      }
      RunTotal(roster, p, n);
      AddMatch(roster, p, last);
      assert FairPick(roster, [] + matches[..|p|], n, matches[|p|]);
      SeatsCovered(roster, last);
    }
  }

  lemma {:induction false} NoPlays(roster: seq<Agent>)
    ensures TotalPlays(roster, []) == 0
  {
    if roster != [] { NoPlays(roster[..|roster| - 1]); }
  }

  function Appearances(roster: seq<Agent>, record: Record): nat
  {
    if roster == [] then 0
    else Appearances(roster[..|roster| - 1], record) + Occurrences(record, roster[|roster| - 1])
  }

  lemma {:induction false} AddMatch(roster: seq<Agent>, history: seq<Record>, record: Record)
    ensures TotalPlays(roster, history + [record]) == TotalPlays(roster, history) + Appearances(roster, record)
  {
    assert (history + [record])[..|history|] == history;
    if roster != [] { AddMatch(roster[..|roster| - 1], history, record); }
  }

  // Roster agents only: every participant is counted once.
  lemma {:induction false} SeatsCovered(roster: seq<Agent>, record: Record)
    requires Distinct(roster) && forall a :: a in record ==> a in roster
    ensures Appearances(roster, record) == |record|
    decreases |record|
  {
    if record == [] {
      NobodyAppears(roster);
    } else {
      var p, a := record[..|record| - 1], record[|record| - 1];
      SeatsCovered(roster, p);
      AppearanceOf(roster, record);
    }
  }

  lemma {:induction false} NobodyAppears(roster: seq<Agent>)
    ensures Appearances(roster, []) == 0
  {
    if roster != [] { NobodyAppears(roster[..|roster| - 1]); }
  }

  lemma {:induction false} AppearanceOf(roster: seq<Agent>, record: Record)
    requires Distinct(roster) && record != []
    ensures var a := record[|record| - 1];
            Appearances(roster, record) == Appearances(roster, record[..|record| - 1]) + if a in roster then 1 else 0
    decreases |roster|
  {
    if roster != [] {
      var p := roster[..|roster| - 1];
      assert roster == p + [roster[|roster| - 1]];
      AppearanceOf(p, record);
    }
  }

  // ------------------------------------------------ the draws decide everything the counts leave open

  lemma SwapThenShuffle<T>(s: seq<T>, draw: nat -> nat, i: nat)
    requires 0 < i < |s| && forall k: nat :: draw(k) <= k
    ensures ShuffleFrom(s, draw, i) == ShuffleFrom(Swap(s, i, draw(i)), draw, i - 1)
  {
  }

  lemma SwapAt<T>(s: seq<T>, i: nat, j: nat)
    requires j <= i < |s|
    ensures Swap(s, i, j)[i] == s[j]
    ensures forall k :: i < k < |s| ==> Swap(s, i, j)[k] == s[k]
  {
  }

  lemma {:induction false} SameDraws<T>(s: seq<T>, d: nat -> nat, e: nat -> nat, i: nat)
    requires i < |s| && (forall k: nat :: d(k) <= k) && (forall k: nat :: e(k) <= k)
    requires forall k: nat :: 1 <= k <= i ==> d(k) == e(k)
    ensures ShuffleFrom(s, d, i) == ShuffleFrom(s, e, i)
    decreases i
  {
    hide *;
    if i > 0 {
      SwapThenShuffle(s, d, i);
      SwapThenShuffle(s, e, i);
      SameDraws(Swap(s, i, d(i)), d, e, i - 1);
    } else {
      ShuffleEnds(s, d);
      ShuffleEnds(s, e);
    }
  }

  // What stands above position i stays there.
  lemma {:induction false} ShuffleKeepsAbove<T>(s: seq<T>, draw: nat -> nat, i: nat)
    requires i < |s| && forall k: nat :: draw(k) <= k
    ensures forall k :: i < k < |s| ==> ShuffleFrom(s, draw, i)[k] == s[k]
    decreases i
  {
    hide *;
    if i > 0 {
      SwapThenShuffle(s, draw, i);
      SwapAt(s, i, draw(i));
      ShuffleKeepsAbove(Swap(s, i, draw(i)), draw, i - 1);
    } else {
      ShuffleEnds(s, draw);
    }
  }

  lemma HeadsMatch<T>(s: seq<T>, t: seq<T>, i: nat)
    requires multiset(s) == multiset(t) && i < |s| == |t| && forall k :: i < k < |s| ==> s[k] == t[k]
    ensures multiset(s[..i + 1]) == multiset(t[..i + 1])
  {
    var (a, b, c) := (s[..i + 1], t[..i + 1], s[i + 1..]);
    assert s == a + c && t == b + c;
    assert multiset(a) + multiset(c) == multiset(b) + multiset(c);
    assert multiset(a) == multiset(a) + multiset(c) - multiset(c);
    assert multiset(b) == multiset(b) + multiset(c) - multiset(c);
  }

  // What belongs at position i stands there or below, and swapping it in place leaves a smaller task.
  lemma NextInPlace<T>(s: seq<T>, t: seq<T>, i: nat) returns (j: nat)
    requires multiset(s) == multiset(t) && i < |s| == |t| && forall k :: i < k < |s| ==> s[k] == t[k]
    ensures j <= i && s[j] == t[i]
    ensures forall k :: i <= k < |s| ==> Swap(s, i, j)[k] == t[k]
  {
    HeadsMatch(s, t, i);
    assert t[..i + 1][i] == t[i] && t[i] in multiset(s[..i + 1]);
    j :| 0 <= j <= i && s[..i + 1][j] == t[i];
  }

  lemma {:induction false} ShuffleReaches<T>(s: seq<T>, t: seq<T>, i: nat) returns (draw: nat -> nat)
    requires multiset(s) == multiset(t) && i < |s| == |t| && forall k :: i < k < |s| ==> s[k] == t[k]
    ensures forall k: nat :: draw(k) <= k
    ensures ShuffleFrom(s, draw, i) == t
    decreases i
  {
    hide *;
    var j := NextInPlace(s, t, i);
    if i == 0 {
      draw := (k: nat) => k;
      ShuffleEnds(s, draw);
      assert s == t;
    } else {
      var rest := ShuffleReaches(Swap(s, i, j), t, i - 1);
      draw := (k: nat) => if k == i then j else rest(k);
      SameDraws(Swap(s, i, j), draw, rest, i - 1);
      SwapThenShuffle(s, draw, i);
    }
  }

  lemma ShuffledAt<T>(s: seq<T>, draw: nat -> nat, i: nat)
    requires 0 < i < |s| && forall k: nat :: draw(k) <= k
    ensures ShuffleFrom(s, draw, i)[i] == s[draw(i)]
  {
    hide *;
    SwapThenShuffle(s, draw, i);
    ShuffleKeepsAbove(Swap(s, i, draw(i)), draw, i - 1);
    SwapAt(s, i, draw(i));
  }

  // Every order of the items comes out of some draws.
  lemma EveryOrderComesOut<T>(s: seq<T>, t: seq<T>) returns (draw: nat -> nat)
    requires multiset(s) == multiset(t)
    ensures forall k: nat :: draw(k) <= k
    ensures Shuffled(s, draw) == t
  {
    hide *;
    SameLength(s, t);
    if s == [] {
      draw := (k: nat) => k;
    } else {
      draw := ShuffleReaches(s, t, |s| - 1);
    }
    ShuffleEnds(s, draw);
  }

  // Two draws give the same order of different items iff they agree wherever a draw is made: so
  // uniform draws make all orders equally likely.
  lemma DrawsDecideTheOrder<T>(s: seq<T>, d: nat -> nat, e: nat -> nat)
    requires Distinct(s) && (forall k: nat :: d(k) <= k) && (forall k: nat :: e(k) <= k)
    ensures Shuffled(s, d) == Shuffled(s, e) <==> forall k: nat :: 1 <= k < |s| ==> d(k) == e(k)
  {
    hide ShuffleFrom, Distinct;
    if s != [] {
      if Shuffled(s, d) == Shuffled(s, e) { OrderFixesDraws(s, d, e, |s| - 1); }
      if forall k: nat :: 1 <= k < |s| ==> d(k) == e(k) { SameDraws(s, d, e, |s| - 1); }
    }
  }

  lemma {:induction false} OrderFixesDraws<T>(s: seq<T>, d: nat -> nat, e: nat -> nat, i: nat)
    requires Distinct(s) && i < |s| && (forall k: nat :: d(k) <= k) && (forall k: nat :: e(k) <= k)
    requires ShuffleFrom(s, d, i) == ShuffleFrom(s, e, i)
    ensures forall k: nat :: 1 <= k <= i ==> d(k) == e(k)
    decreases i
  {
    hide *;
    if i > 0 {
      SwapThenShuffle(s, d, i);
      SwapThenShuffle(s, e, i);
      ShuffledAt(s, d, i);
      ShuffledAt(s, e, i);
      OnlyOnce(s, d(i), e(i));
      DistinctPermuted(s, Swap(s, i, d(i)));
      OrderFixesDraws(Swap(s, i, d(i)), d, e, i - 1);
    }
  }

  lemma OnlyOnce<T>(s: seq<T>, i: nat, j: nat)
    requires Distinct(s) && i < |s| && j < |s|
    ensures s[i] == s[j] ==> i == j
  {
  }

  // The agents of the roster without a seat.
  function Benched(roster: seq<Agent>, seats: seq<Agent>): seq<Agent>
  {
    if roster == [] then []
    else (if roster[0] in seats then [] else [roster[0]]) + Benched(roster[1..], seats)
  }

  lemma {:induction false} BenchedCounts(roster: seq<Agent>, seats: seq<Agent>, a: Agent)
    ensures multiset(Benched(roster, seats))[a] == if a in seats then 0 else multiset(roster)[a]
    decreases |roster|
  {
    if roster != [] {
      assert roster == [roster[0]] + roster[1..];
      BenchedCounts(roster[1..], seats, a);
    }
  }

  lemma SeatedAndBenched(roster: seq<Agent>, seats: seq<Agent>)
    requires Distinct(roster) && Distinct(seats) && forall a :: a in seats ==> a in roster
    ensures multiset(seats) + multiset(Benched(roster, seats)) == multiset(roster)
  {
    DistinctByMultiset(roster);
    DistinctByMultiset(seats);
    hide Distinct, Benched;
    forall a ensures multiset(seats)[a] + multiset(Benched(roster, seats))[a] == multiset(roster)[a] {
      BenchedCounts(roster, seats, a);
      assert a in seats <==> multiset(seats)[a] > 0;
      assert a in roster <==> multiset(roster)[a] > 0;
    }
  }

  lemma {:induction false} SortedStays(s: seq<Agent>, history: seq<Record>)
    requires Ascending(s, history)
    ensures LeastPlayedFirst(s, history) == s
    decreases |s|
  {
    hide Plays;
    if s != [] { SortedStays(s[1..], history); }
  }

  // The positions of the seated agents in the selection.
  lemma SeatOrder(selected: seq<Agent>, seats: seq<Agent>) returns (perm: seq<nat>)
    requires Distinct(selected) && Distinct(seats) && multiset(selected) == multiset(seats)
    ensures Permutes(perm, |selected|) && Seated(selected, perm) == seats
  {
    var n := |selected|;
    SameLength(selected, seats);
    SameElements(selected, seats);
    assert forall i :: 0 <= i < n ==> seats[i] in selected;
    perm := seq(n, i requires 0 <= i < n => IndexIn(selected, seats[i]));
    forall i, j | 0 <= i < j < n ensures perm[i] != perm[j] {
      assert seats[i] != seats[j];
    }
    forall x: nat | x < n ensures x in perm {
      assert selected[x] in seats;
      var i :| 0 <= i < n && seats[i] == selected[x];
      assert perm[i] == x;
    }
    SamePositions(perm, n);
  }

  function IndexIn(s: seq<Agent>, a: Agent): (i: nat)
    requires a in s
    ensures i < |s| && s[i] == a
  {
    if s[0] == a then 0 else 1 + IndexIn(s[1..], a)
  }

  lemma SamePositions(perm: seq<nat>, n: nat)
    requires |perm| == n && Distinct(perm) && (forall i :: 0 <= i < n ==> perm[i] < n)
    requires forall x: nat :: x < n ==> x in perm
    ensures Permutes(perm, n)
  {
    IndicesDistinct(n);
    DistinctByMultiset(perm);
    DistinctByMultiset(Indices(n));
    forall x: nat ensures multiset(perm)[x] == multiset(Indices(n))[x] {
      assert x < n ==> Indices(n)[x] == x && x in Indices(n);
      assert x in multiset(perm) <==> x in perm;
      assert x in multiset(Indices(n)) <==> x in Indices(n);
    }
  }

  // Every fair pick, in every seat order, comes out of some draws.
  lemma EveryFairPickComesOut(roster: seq<Agent>, history: seq<Record>, n: nat, seats: seq<Agent>)
    returns (rosterDraw: nat -> nat, seatDraw: nat -> nat)
    requires Distinct(roster) && n <= |roster| && FairPick(roster, history, n, seats)
    ensures forall k: nat :: rosterDraw(k) <= k && seatDraw(k) <= k
    ensures NextMatchSeats(roster, history, n, rosterDraw, seatDraw) == Seats(seats)
  {
    hide Shuffled, LeastPlayedFirst, Plays, Indices, Distinct, Ascending, Permutes, Seated, Benched;
    var selected, bench := LeastPlayedFirst(seats, history), LeastPlayedFirst(Benched(roster, seats), history);
    var sorted := selected + bench;
    SeatedAndBenched(roster, seats);
    SameLength(selected, seats);
    PickAscends(roster, history, n, seats);
    rosterDraw := EveryOrderComesOut(roster, sorted);
    SortedStays(sorted, history);
    DistinctPermuted(seats, selected);
    var perm := SeatOrder(selected, seats);
    ShuffledIndices(n, k => k);
    seatDraw := EveryOrderComesOut(Indices(n), perm);
    assert sorted[..n] == selected;
    PlanInParts(roster, history, n, rosterDraw, seatDraw);
  }

  lemma PickAscends(roster: seq<Agent>, history: seq<Record>, n: nat, seats: seq<Agent>)
    requires FairPick(roster, history, n, seats)
    ensures Ascending(LeastPlayedFirst(seats, history) + LeastPlayedFirst(Benched(roster, seats), history), history)
  {
    hide *;
    var benched := Benched(roster, seats);
    var selected, bench := LeastPlayedFirst(seats, history), LeastPlayedFirst(benched, history);
    SortAscends(seats, history);
    SortAscends(benched, history);
    SameElements(selected, seats);
    SameElements(bench, benched);
    forall a, b | a in selected && b in bench ensures Plays(history, a) <= Plays(history, b) {
      OnlyOthersBenched(roster, seats, b);
      FairToOthers(roster, history, n, seats, a, b);
    }
    AscendingConcat(selected, bench, history);
  }

  lemma FairToOthers(roster: seq<Agent>, history: seq<Record>, n: nat, seats: seq<Agent>, a: Agent, b: Agent)
    requires FairPick(roster, history, n, seats) && a in seats && b in roster && b !in seats
    ensures Plays(history, a) <= Plays(history, b)
  {
    hide Plays, Distinct;
  }

  lemma {:induction false} OnlyOthersBenched(roster: seq<Agent>, seats: seq<Agent>, b: Agent)
    requires b in Benched(roster, seats)
    ensures b in roster && b !in seats
  {
    if b in Benched(roster[1..], seats) { OnlyOthersBenched(roster[1..], seats, b); }
  }

  lemma AscendingConcat(a: seq<Agent>, b: seq<Agent>, history: seq<Record>)
    requires Ascending(a, history) && Ascending(b, history)
    requires forall x, y :: x in a && y in b ==> Plays(history, x) <= Plays(history, y)
    ensures Ascending(a + b, history)
  {
    hide Plays;
    var s := a + b;
    forall i, j | 0 <= i < j < |s| ensures Plays(history, s[i]) <= Plays(history, s[j]) {
      if i < |a| <= j { assert s[i] in a && s[j] in b; }
    }
  }
}
