// Ranking by conservative score, and the two ways of rewinding scores over a window of events.
module RankRewind {
  import opened Options
  import opened Utils
  import Statistics

  type Id = string

  type Scores = map<Id, real>

  // A rating event: the conservative scores of a build before and after one game.
  datatype RatingEvent = RatingEvent(build: Id, beforeMu: real, beforeSigma: real, afterMu: real, afterSigma: real)
  {
    function Before(): real { Score(beforeMu, beforeSigma) }
    function After(): real { Score(afterMu, afterSigma) }
  }

  function Score(mu: real, sigma: real): real { mu - 3.0 * sigma }

  // ------------------------------------------------ the order of the ranking

  // The order Python compares strings in.
  predicate Less(a: Id, b: Id)
  {
    if b == "" then false
    else if a == "" then true
    else a[0] < b[0] || (a[0] == b[0] && Less(a[1..], b[1..]))
  }

  lemma {:induction false} LessTotal(a: Id, b: Id)
    ensures a == b || Less(a, b) || Less(b, a)
    ensures !(Less(a, b) && Less(b, a)) && !Less(a, a)
    decreases |a|
  {
    Irreflexive(a);
    if a != "" && b != "" {
      LessTotal(a[1..], b[1..]);
      assert a == [a[0]] + a[1..] && b == [b[0]] + b[1..];
    }
  }

  lemma {:induction false} Irreflexive(a: Id)
    ensures !Less(a, a)
  {
    if a != "" { Irreflexive(a[1..]); }
  }

  lemma {:induction false} LessTransitive(a: Id, b: Id, c: Id)
    requires Less(a, b) && Less(b, c)
    ensures Less(a, c)
    decreases |a|
  {
    if a != "" && a[0] == b[0] && b[0] == c[0] { LessTransitive(a[1..], b[1..], c[1..]); }
  }

  // Higher score first, then the smaller id.
  predicate Ahead(scores: Scores, a: Id, b: Id)
    requires a in scores && b in scores
  {
    scores[a] > scores[b] || (scores[a] == scores[b] && Less(a, b))
  }

  lemma AheadTotal(scores: Scores, a: Id, b: Id)
    requires a in scores && b in scores
    ensures a == b || Ahead(scores, a, b) || Ahead(scores, b, a)
    ensures !(Ahead(scores, a, b) && Ahead(scores, b, a)) && !Ahead(scores, a, a)
  {
    LessTotal(a, b);
    LessTotal(a, a);
  }

  lemma AheadTransitive(scores: Scores, a: Id, b: Id, c: Id)
    requires a in scores && b in scores && c in scores
    requires Ahead(scores, a, b) && Ahead(scores, b, c)
    ensures Ahead(scores, a, c)
  {
    if scores[a] == scores[b] == scores[c] { LessTransitive(a, b, c); }
  }

  predicate IsFirst(scores: Scores, ids: set<Id>, x: Id)
    requires ids <= scores.Keys
  {
    x in ids && forall y :: y in ids && y != x ==> Ahead(scores, x, y)
  }

  lemma {:induction false} FirstExists(scores: Scores, ids: set<Id>) returns (x: Id)
    requires ids <= scores.Keys && ids != {}
    ensures IsFirst(scores, ids, x)
    decreases |ids|
  {
    x :| x in ids;
    var rest := ids - {x};
    if rest != {} {
      assert |rest| < |ids|;
      var y := FirstExists(scores, rest);
      AheadTotal(scores, x, y);
      if Ahead(scores, x, y) {
        forall z | z in ids && z != x ensures Ahead(scores, x, z) {
          assert z in rest;
          if z != y { AheadTransitive(scores, x, y, z); }
        }
      } else {
        forall z | z in ids && z != y ensures Ahead(scores, y, z) {
          assert z == x || z in rest;
        }
        x := y;
      }
    } else {
      assert forall z :: z in ids ==> z == x || z in rest;
    }
  }

  lemma FirstUnique(scores: Scores, ids: set<Id>, x: Id, y: Id)
    requires ids <= scores.Keys && IsFirst(scores, ids, x) && IsFirst(scores, ids, y)
    ensures x == y
  {
    AheadTotal(scores, x, y);
  }

  function First(scores: Scores, ids: set<Id>): (x: Id)
    requires ids <= scores.Keys && ids != {}
    ensures IsFirst(scores, ids, x)
  {
    assert exists x :: IsFirst(scores, ids, x) by { var x := FirstExists(scores, ids); }
    assert forall x, y :: IsFirst(scores, ids, x) && IsFirst(scores, ids, y) ==> x == y by {
      forall x, y | IsFirst(scores, ids, x) && IsFirst(scores, ids, y)
        ensures x == y { FirstUnique(scores, ids, x, y); }
    }
    var x: Id :| x in ids && IsFirst(scores, ids, x);
    x
  }

  // sorted(scores.items(), key = (-score, id)), as ids.
  function Order(scores: Scores, ids: set<Id>): seq<Id>
    requires ids <= scores.Keys
    decreases |ids|
  {
    if ids == {} then []
    else
      var x := First(scores, ids);
      assert |ids - {x}| < |ids|;
      [x] + Order(scores, ids - {x})
  }

  predicate Sorted(scores: Scores, s: seq<Id>)
    requires forall x :: x in s ==> x in scores
  {
    forall i, j :: 0 <= i < j < |s| ==> Ahead(scores, s[i], s[j])
  }

  lemma {:induction false} OrderSorts(scores: Scores, ids: set<Id>)
    requires ids <= scores.Keys
    ensures |Order(scores, ids)| == |ids|
    ensures forall x :: x in Order(scores, ids) <==> x in ids
    ensures Sorted(scores, Order(scores, ids))
    decreases |ids|
  {
    if ids != {} {
      var x := First(scores, ids);
      OrderSorts(scores, ids - {x});
    }
  }

  lemma SortedDistinct(scores: Scores, s: seq<Id>, i: nat, j: nat)
    requires (forall x :: x in s ==> x in scores) && Sorted(scores, s)
    requires i < |s| && j < |s| && s[i] == s[j]
    ensures i == j
  {
    if i < j { SortedApart(scores, s, i, j); }
    if j < i { SortedApart(scores, s, j, i); }
  }

  lemma SortedApart(scores: Scores, s: seq<Id>, i: nat, j: nat)
    requires (forall x :: x in s ==> x in scores) && Sorted(scores, s) && i < j < |s|
    ensures s[i] != s[j]
  {
    AheadTotal(scores, s[i], s[j]);
  }

  function Position(s: seq<Id>, x: Id): (i: nat)
    requires x in s
    ensures i < |s| && s[i] == x
  {
    if s[0] == x then 0 else 1 + Position(s[1..], x)
  }

  // _ranks
  function Ranks(scores: Scores): map<Id, nat>
  {
    OrderSorts(scores, scores.Keys);
    map x | x in scores.Keys :: Position(Order(scores, scores.Keys), x) + 1
  }

  ghost predicate HoldsRank(scores: Scores, r: int)
  {
    exists x :: x in scores && Ranks(scores)[x] == r
  }

  // The ranks are a bijection onto 1..n: every rank from 1 to n belongs to exactly one id.
  lemma RanksAreABijection(scores: Scores)
    ensures Ranks(scores).Keys == scores.Keys
    ensures forall x :: x in scores ==> 1 <= Ranks(scores)[x] <= |scores|
    ensures forall x, y :: x in scores && y in scores && Ranks(scores)[x] == Ranks(scores)[y] ==> x == y
    ensures forall r :: 1 <= r <= |scores| ==> HoldsRank(scores, r)
  {
    hide *;
    RanksFromOrder(scores);
    forall x | x in scores ensures 1 <= Ranks(scores)[x] <= |scores| { RankInRange(scores, x); }
    forall x, y | x in scores && y in scores && Ranks(scores)[x] == Ranks(scores)[y] ensures x == y {
      RankNamesOne(scores, x, y);
    }
    forall r | 1 <= r <= |scores| ensures HoldsRank(scores, r) { RankIsHeld(scores, r); }
  }

  lemma RankInRange(scores: Scores, x: Id)
    requires x in scores
    ensures x in Ranks(scores) && 1 <= Ranks(scores)[x] <= |scores|
  {
    RanksFromOrder(scores);
    hide *;
  }

  lemma RankNamesOne(scores: Scores, x: Id, y: Id)
    requires x in scores && y in scores
    requires x in Ranks(scores) && y in Ranks(scores) && Ranks(scores)[x] == Ranks(scores)[y]
    ensures x == y
  {
    RanksFromOrder(scores);
    hide *;
    var order := Order(scores, scores.Keys);
    assert order[Position(order, x)] == x && order[Position(order, y)] == y;
  }

  lemma RankIsHeld(scores: Scores, r: int)
    requires 1 <= r <= |scores|
    ensures HoldsRank(scores, r)
  {
    RanksFromOrder(scores);
    hide Ranks, Order, Ahead, Position, Sorted;
    var order := Order(scores, scores.Keys);
    var x := order[r - 1];
    assert x in order;
    SortedDistinct(scores, order, Position(order, x), r - 1);
    assert x in scores && Ranks(scores)[x] == r;
  }

  lemma RanksFromOrder(scores: Scores)
    ensures var order := Order(scores, scores.Keys);
            && |order| == |scores|
            && (forall x :: x in order <==> x in scores)
            && Sorted(scores, order)
            && Ranks(scores).Keys == scores.Keys
            && forall x :: x in scores ==> x in order && Ranks(scores)[x] == Position(order, x) + 1
  {
    OrderSorts(scores, scores.Keys);
    assert |scores.Keys| == |scores|;
  }

  // A smaller rank means a higher score, or the same score and a smaller id.
  lemma RanksFollowScores(scores: Scores, a: Id, b: Id)
    requires a in scores && b in scores
    ensures Ranks(scores).Keys == scores.Keys
    ensures Ranks(scores)[a] < Ranks(scores)[b] <==> Ahead(scores, a, b)
  {
    hide Ranks, Order, Position, Less;
    RanksFromOrder(scores);
    var order := Order(scores, scores.Keys);
    PositionsFollow(scores, order, a, b);
  }

  lemma PositionsFollow(scores: Scores, order: seq<Id>, a: Id, b: Id)
    requires (forall x :: x in order ==> x in scores) && Sorted(scores, order) && a in order && b in order
    ensures Position(order, a) < Position(order, b) <==> Ahead(scores, a, b)
  {
    var i, j := Position(order, a), Position(order, b);
    hide Position, Less;
    AheadTotal(scores, a, b);
    if i < j { assert Ahead(scores, order[i], order[j]); }
    if j < i { assert Ahead(scores, order[j], order[i]); }
  }

  // A rank is one more than the number of ids ahead.
  lemma RankCountsThoseAhead(scores: Scores, a: Id)
    requires a in scores
    ensures Ranks(scores)[a] == 1 + |set y | y in scores && Ahead(scores, y, a)|
  {
    RanksFromOrder(scores);
    var order := Order(scores, scores.Keys);
    var i := Position(order, a);
    var ahead := set y | y in scores && Ahead(scores, y, a);
    hide Ranks, Order, Position;
    forall y ensures y in ahead <==> y in Elements(order[..i]) { AheadIffBefore(scores, order, i, y); }
    assert ahead == Elements(order[..i]);
    forall k, l | 0 <= k < l < |order| ensures order[k] != order[l] { SortedApart(scores, order, k, l); }
    hide *;
    DistinctCount(order, i);
  }

  lemma AheadIffBefore(scores: Scores, order: seq<Id>, i: nat, y: Id)
    requires (forall x :: x in order <==> x in scores) && Sorted(scores, order) && i < |order|
    ensures y in scores && Ahead(scores, y, order[i]) <==> y in order[..i]
  {
    assert y in order[..i] ==> y in order;
    if y in scores {
      var j :| 0 <= j < |order| && order[j] == y;
      AheadTotal(scores, y, order[i]);
      if j < i { assert order[..i][j] == y; }
      if i <= j {
        forall k | 0 <= k < i ensures order[k] != y { SortedApart(scores, order, k, j); }
      }
    }
  }

  function Elements(s: seq<Id>): set<Id> { set y | y in s }

  lemma {:induction false} DistinctCount(s: seq<Id>, n: nat)
    requires (forall i, j :: 0 <= i < j < |s| ==> s[i] != s[j]) && n <= |s|
    ensures |Elements(s[..n])| == n
  {
    if n > 0 {
      DistinctCount(s, n - 1);
      assert s[..n] == s[..n - 1] + [s[n - 1]];
      assert Elements(s[..n]) == Elements(s[..n - 1]) + {s[n - 1]};
    }
  }

  // ------------------------------------------------ rank deltas

  datatype Stability = Stability(windowSize: int, observedUpdates: nat, currentRank: Option<nat>,
                                 earliestRank: Option<nat>, rankDelta: Option<nat>, stable: Option<bool>)

  function Distance(a: nat, b: nat): nat { if a >= b then a - b else b - a }

  function RankDelta(current: Option<nat>, earliest: Option<nat>): Option<nat>
  {
    if current.Some? && earliest.Some? then Some(Distance(current.value, earliest.value)) else None
  }

  function StabilityOf(k: int, updates: nat, current: Option<nat>, earliest: Option<nat>): Stability
  {
    var delta := RankDelta(current, earliest);
    Stability(k, updates, current, earliest, delta, if delta.Some? then Some(delta.value == 0) else None)
  }

  // What a report says of one entity: both ranks, how far apart they are, and stable iff not at all.
  predicate Describes(s: Stability, k: int, updates: nat, current: Option<nat>, earliest: Option<nat>)
  {
    && s.windowSize == k && s.observedUpdates == updates && s.currentRank == current && s.earliestRank == earliest
    && (s.rankDelta.Some? <==> current.Some? && earliest.Some?) && (s.stable.Some? <==> s.rankDelta.Some?)
    && (s.rankDelta.Some? ==>
          && (|| earliest.value == current.value + s.rankDelta.value
              || current.value == earliest.value + s.rankDelta.value)
          && (s.stable.value <==> current.value == earliest.value))
  }

  lemma StabilityDescribes(k: int, updates: nat, current: Option<nat>, earliest: Option<nat>)
    ensures Describes(StabilityOf(k, updates, current, earliest), k, updates, current, earliest)
  {
  }

  function Lookup<V>(m: map<Id, V>, x: Id): Option<V> { if x in m then Some(m[x]) else None }

  predicate Unmoved(current: Scores, baseline: Scores, x: Id)
  {
    RankDelta(Lookup(Ranks(current), x), Lookup(Ranks(baseline), x)) == Some(0)
  }

  // No current rank moves exactly when the current order is the beginning of the baseline order;
  // the baseline may hold ids that have no current score.
  lemma NoRankMovesIff(current: Scores, baseline: Scores)
    requires current.Keys <= baseline.Keys
    ensures (forall x :: x in current ==> Unmoved(current, baseline, x))
       <==> Order(current, current.Keys) <= Order(baseline, baseline.Keys)
  {
    hide *;
    RanksFromOrder(current);
    RanksFromOrder(baseline);
    var s, t := Order(current, current.Keys), Order(baseline, baseline.Keys);
    forall x | x in current ensures Unmoved(current, baseline, x) <==> Position(s, x) == Position(t, x) {
      RankUnmoved(current, baseline, x);
    }
    SubsetSize(current.Keys, baseline.Keys);
    if forall x :: x in current ==> Position(s, x) == Position(t, x) { PrefixFromPositions(current, s, baseline, t); }
    if s <= t { PositionsFromPrefix(current, s, baseline, t); }
  }

  lemma RankUnmoved(current: Scores, baseline: Scores, x: Id)
    requires x in current && x in baseline
    requires x in Order(current, current.Keys) && x in Order(baseline, baseline.Keys)
    ensures Unmoved(current, baseline, x)
       <==> Position(Order(current, current.Keys), x) == Position(Order(baseline, baseline.Keys), x)
  {
    RankAt(current, x);
    RankAt(baseline, x);
    hide Ranks, Order, Position, Lookup;
  }

  lemma RankAt(scores: Scores, x: Id)
    requires x in scores && x in Order(scores, scores.Keys)
    ensures Lookup(Ranks(scores), x) == Some(Position(Order(scores, scores.Keys), x) + 1)
  {
    hide Ranks, Order, Position, Sorted;
    RanksFromOrder(scores);
  }

  lemma PrefixFromPositions(current: Scores, s: seq<Id>, baseline: Scores, t: seq<Id>)
    requires (forall x :: x in s <==> x in current) && Sorted(current, s)
    requires forall x :: x in current ==> x in t && Position(s, x) == Position(t, x)
    requires |s| <= |t|
    ensures s <= t
  {
    forall i | 0 <= i < |s| ensures s[i] == t[i] {
      assert s[i] in s;
      SortedDistinct(current, s, Position(s, s[i]), i);
    }
  }

  lemma PositionsFromPrefix(current: Scores, s: seq<Id>, baseline: Scores, t: seq<Id>)
    requires forall x :: x in s <==> x in current
    requires (forall x :: x in t <==> x in baseline) && Sorted(baseline, t)
    requires s <= t
    ensures forall x :: x in current ==> x in t && Position(s, x) == Position(t, x)
  {
    forall x | x in current ensures x in t && Position(s, x) == Position(t, x) {
      var i := Position(s, x);
      assert t[i] == x;
      SortedDistinct(baseline, t, i, Position(t, x));
    }
  }

  // ------------------------------------------------ rewinding

  function Get(scores: Scores, x: Id): real { if x in scores then scores[x] else 0.0 }

  // Overwriting with the score before each event, newest event first.
  function Overwritten(scores: Scores, events: seq<RatingEvent>): Scores
  {
    if events == [] then scores
    else
      var e := events[|events| - 1];
      Overwritten(scores, events[..|events| - 1])[e.build := e.Before()]
  }

  // Subtracting the change each event made, for the builds that belong to a model.
  function Subtracted(scores: Scores, events: seq<RatingEvent>, models: map<Id, Id>): Scores
  {
    if events == [] then scores
    else
      var e := events[|events| - 1];
      var so_far := Subtracted(scores, events[..|events| - 1], models);
      if e.build !in models then so_far
      else so_far[models[e.build] := Get(so_far, models[e.build]) - (e.After() - e.Before())]
  }

  // The position of a build's oldest event; events are ordered newest first.
  function OldestOf(events: seq<RatingEvent>, b: Id): (o: Option<nat>)
    ensures o.None? ==> forall i :: 0 <= i < |events| ==> events[i].build != b
    ensures o.Some? ==> o.value < |events| && events[o.value].build == b
    ensures o.Some? ==> forall i :: o.value < i < |events| ==> events[i].build != b
  {
    if events == [] then None
    else if events[|events| - 1].build == b then Some(|events| - 1)
    else OldestOf(events[..|events| - 1], b)
  }

  // The score of a build before its oldest event, or its current score when it has none.
  function ScoreBefore(scores: Scores, events: seq<RatingEvent>, b: Id): real
  {
    var oldest := OldestOf(events, b);
    if oldest.Some? then events[oldest.value].Before() else Get(scores, b)
  }

  // What one event added to a model: nothing unless it is of one of its builds.
  function GainOf(e: RatingEvent, models: map<Id, Id>, m: Id): real
  {
    if e.build in models && models[e.build] == m then e.After() - e.Before() else 0.0
  }

  // What the events of the builds of a model added to it.
  function Gained(events: seq<RatingEvent>, models: map<Id, Id>, m: Id): real
  {
    if events == [] then 0.0
    else
      var e := events[0];
      GainOf(e, models, m) + Gained(events[1..], models, m)
  }

  // Overwriting leaves every build with the score before its oldest event.
  lemma {:induction false} OverwrittenPerBuild(scores: Scores, events: seq<RatingEvent>, b: Id)
    ensures Get(Overwritten(scores, events), b) == ScoreBefore(scores, events, b)
    decreases |events|
  {
    if events != [] {
      OverwrittenPerBuild(scores, events[..|events| - 1], b);
    }
  }

  // That is mu - 3 sigma as recorded before the event, and without an event the current score.
  lemma ScoreBeforeOldest(scores: Scores, events: seq<RatingEvent>, b: Id, i: nat)
    requires i < |events| && forall j :: i < j < |events| ==> events[j].build != b
    ensures events[i].build == b ==>
              ScoreBefore(scores, events, b) == events[i].beforeMu - 3.0 * events[i].beforeSigma
    ensures (forall j :: 0 <= j <= i ==> events[j].build != b) ==> ScoreBefore(scores, events, b) == Get(scores, b)
  {
  }

  lemma {:induction false} GainedSnoc(events: seq<RatingEvent>, e: RatingEvent, models: map<Id, Id>, m: Id)
    ensures Gained(events + [e], models, m)
            == Gained(events, models, m) + GainOf(e, models, m)
    decreases |events|
  {
    if events == [] {
      assert [] + [e] == [e] && [e][1..] == [];
    } else {
      assert (events + [e])[1..] == events[1..] + [e];
      GainedSnoc(events[1..], e, models, m);
    }
  }

  // Subtracting leaves every model with its score less what its builds gained, in any order and
  // for any number of builds.
  lemma {:induction false} SubtractedPerModel(scores: Scores, events: seq<RatingEvent>, models: map<Id, Id>, m: Id)
    ensures Get(Subtracted(scores, events, models), m) == Get(scores, m) - Gained(events, models, m)
    ensures forall e: RatingEvent :: GainOf(e, models, m) ==
              if e.build in models && models[e.build] == m
              then (e.afterMu - e.beforeMu) - 3.0 * (e.afterSigma - e.beforeSigma) else 0.0
    decreases |events|
  {
    if events != [] {
      var p, e := events[..|events| - 1], events[|events| - 1];
      assert events == p + [e];
      SubtractedPerModel(scores, p, models, m);
      GainedSnoc(p, e, models, m);
    }
  }

  predicate Agree(builds: Scores, byModel: Scores, models: map<Id, Id>)
  {
    forall b :: b in models ==> Get(builds, b) == Get(byModel, models[b])
  }

  predicate SingleBuild(models: map<Id, Id>)
  {
    forall b, c :: b in models && c in models && models[b] == models[c] ==> b == c
  }

  // The recorded changes of a build add up to the way from its oldest score to the current one.
  predicate Balanced(scores: Scores, events: seq<RatingEvent>, models: map<Id, Id>, b: Id)
    requires b in models
  {
    ScoreBefore(scores, events, b) == Get(scores, b) - Gained(events, models, models[b])
  }

  // The two ways of rewinding give the same earlier scores exactly when the recorded changes of
  // every build add up.
  lemma RewindsAgreeIff(builds: Scores, byModel: Scores, events: seq<RatingEvent>, models: map<Id, Id>)
    requires Agree(builds, byModel, models)
    ensures Agree(Overwritten(builds, events), Subtracted(byModel, events, models), models)
       <==> forall b :: b in models ==> Balanced(builds, events, models, b)
  {
    hide Overwritten, Subtracted, ScoreBefore, Gained;
    forall b | b in models
      ensures Get(Overwritten(builds, events), b) == Get(Subtracted(byModel, events, models), models[b])
         <==> Balanced(builds, events, models, b)
    {
      OverwrittenPerBuild(builds, events, b);
      SubtractedPerModel(byModel, events, models, models[b]);
    }
  }

  // Event i of a model's build ends where the build's next newer event starts, or at the current
  // score when there is none.
  predicate LinkedAt(scores: Scores, events: seq<RatingEvent>, models: map<Id, Id>, i: nat)
    requires i < |events|
  {
    events[i].build in models ==> events[i].After() == ScoreBefore(scores, events[..i], events[i].build)
  }

  predicate ChainConsistent(scores: Scores, events: seq<RatingEvent>, models: map<Id, Id>)
  {
    forall i: nat :: i < |events| ==> LinkedAt(scores, events, models, i)
  }

  predicate AllBalanced(scores: Scores, events: seq<RatingEvent>, models: map<Id, Id>)
  {
    forall b :: b in models ==> Balanced(scores, events, models, b)
  }

  // One more event keeps the changes adding up exactly when it is linked.
  lemma BalanceOneMore(scores: Scores, events: seq<RatingEvent>, models: map<Id, Id>, n: nat)
    requires SingleBuild(models) && n < |events| && AllBalanced(scores, events[..n], models)
    ensures AllBalanced(scores, events[..n + 1], models) <==> LinkedAt(scores, events, models, n)
  {
    var p, q, e := events[..n], events[..n + 1], events[n];
    assert q == p + [e] && q[..n] == p;
    forall b | b in models ensures
      Balanced(scores, q, models, b) <==> (b == e.build ==> LinkedAt(scores, events, models, n))
    {
      assert Balanced(scores, p, models, b);
      GainedSnoc(p, e, models, models[b]);
      assert b != e.build ==> ScoreBefore(scores, q, b) == ScoreBefore(scores, p, b);
    }
  }

  // The two reports choose their own window size: the rewinds of single-build models agree for
  // every window up to n events exactly when each of those events is linked.
  lemma {:induction false} EveryWindowAgreesIff(scores: Scores, events: seq<RatingEvent>, models: map<Id, Id>, n: nat)
    requires SingleBuild(models) && n <= |events|
    ensures (forall k: nat :: k <= n ==> AllBalanced(scores, events[..k], models))
       <==> (forall i: nat :: i < n ==> LinkedAt(scores, events, models, i))
  {
    if n == 0 {
      assert events[..0] == [];
      assert AllBalanced(scores, events[..0], models);
    } else {
      EveryWindowAgreesIff(scores, events, models, n - 1);
      if AllBalanced(scores, events[..n - 1], models) { BalanceOneMore(scores, events, models, n - 1); }
    }
  }

  // So over a chain-consistent window the two rewinds agree.
  lemma ChainConsistentWindowsAgree(builds: Scores, byModel: Scores, events: seq<RatingEvent>, models: map<Id, Id>)
    requires SingleBuild(models) && Agree(builds, byModel, models) && ChainConsistent(builds, events, models)
    ensures Agree(Overwritten(builds, events), Subtracted(byModel, events, models), models)
  {
    EveryWindowAgreesIff(builds, events, models, |events|);
    assert events[..|events|] == events;
    RewindsAgreeIff(builds, byModel, events, models);
  }

  // The converse fails: two breaks in a build's chain can cancel.
  lemma BrokenChainsCanCancel(b: Id, start: real, gap: real)
    requires gap != 0.0
    ensures var events := [RatingEvent(b, start, 0.0, start + 1.0, 0.0),
                           RatingEvent(b, start - gap - 1.0, 0.0, start - gap, 0.0)];
            var scores: Scores := map[b := start + 1.0 - gap];
            var models: map<Id, Id> := map[b := b];
            && !LinkedAt(scores, events, models, 0) && !LinkedAt(scores, events, models, 1)
            && Agree(Overwritten(scores, events), Subtracted(scores, events, models), models)
  {
    var events := [RatingEvent(b, start, 0.0, start + 1.0, 0.0),
                   RatingEvent(b, start - gap - 1.0, 0.0, start - gap, 0.0)];
    var scores: Scores := map[b := start + 1.0 - gap];
    var models: map<Id, Id> := map[b := b];
    assert events[..0] == [] && events[..1] == [events[0]];
    assert events[1..] == [events[1]] && events[1..][1..] == [];
    assert Gained(events[1..][1..], models, b) == 0.0;
    assert Gained(events[1..], models, b) == 1.0;
    assert Gained(events, models, b) == 2.0;
    assert OldestOf(events, b) == Some(1);
    assert OldestOf(events[..1], b) == Some(0);
    assert Balanced(scores, events, models, b);
    RewindsAgreeIff(scores, scores, events, models);
  }

  // Without balance the earlier scores do differ: an event whose recorded change does not end at
  // the build's current score.
  lemma RewindsCanDiffer(now: real, e: RatingEvent)
    requires e.After() != now
    ensures var scores: Scores := map[e.build := now];
            Get(Overwritten(scores, [e]), e.build) != Get(Subtracted(scores, [e], map[e.build := e.build]), e.build)
  {
    assert [e][..0] == [];
  }

  // ------------------------------------------------ the two reports

  // The newest k events; the log is ordered newest first.
  function Window(log: seq<RatingEvent>, k: int): (events: seq<RatingEvent>)
    ensures events == log[..if k < 0 then 0 else if k < |log| then k else |log|]
  {
    if k <= 0 then [] else if k < |log| then log[..k] else log
  }

  // Events older than the newest k change no answer.
  lemma OlderEventsDoNotCount(log: seq<RatingEvent>, older: seq<RatingEvent>, k: int)
    requires k <= |log|
    ensures Window(log + older, k) == Window(log, k)
  {
  }

  // _agent_rank_stability
  method AgentRankStability(current: Scores, log: seq<RatingEvent>, k: int, entity: Id, currentRank: Option<nat>)
    returns (r: Stability)
    ensures var n := if k < 0 then 0 else if k < |log| then k else |log|;
            Describes(r, k, n, currentRank, Lookup(Ranks(Overwritten(current, log[..n])), entity))
  {
    hide Ranks;
    var events := Window(log, k);
    var baseline := current;
    for i := 0 to |events|
      invariant baseline == Overwritten(current, events[..i])
    {
      assert events[..i + 1][..i] == events[..i];
      baseline := baseline[events[i].build := events[i].Before()];
    }
    assert events[..|events|] == events;
    var ranks := Ranks(baseline);
    r := StabilityOf(k, |events|, currentRank, if entity in ranks then Some(ranks[entity]) else None);
  }

  function ModelStability(current: Scores, events: seq<RatingEvent>, models: map<Id, Id>, k: int): map<Id, Stability>
  {
    var (now, then_) := (Ranks(current), Ranks(Subtracted(current, events, models)));
    map x | x in current.Keys :: StabilityOf(k, |events|, Lookup(now, x), Lookup(then_, x))
  }

  lemma ModelsDescribed(current: Scores, events: seq<RatingEvent>, models: map<Id, Id>, k: int)
    ensures var out := ModelStability(current, events, models, k);
            && out.Keys == current.Keys
            && forall x :: x in current ==>
                 Describes(out[x], k, |events|, Lookup(Ranks(current), x),
                           Lookup(Ranks(Subtracted(current, events, models)), x))
  {
    hide Ranks, Subtracted, Lookup, StabilityOf, Describes;
    var (now, then_) := (Ranks(current), Ranks(Subtracted(current, events, models)));
    forall x | x in current
      ensures Describes(StabilityOf(k, |events|, Lookup(now, x), Lookup(then_, x)), k, |events|, Lookup(now, x),
                        Lookup(then_, x))
    {
      StabilityDescribes(k, |events|, Lookup(now, x), Lookup(then_, x));
    }
  }

  method Rewind(current: Scores, events: seq<RatingEvent>, models: map<Id, Id>) returns (baseline: Scores)
    ensures baseline == Subtracted(current, events, models)
  {
    baseline := current;
    for i := 0 to |events|
      invariant baseline == Subtracted(current, events[..i], models)
    {
      assert events[..i + 1][..i] == events[..i];
      var e := events[i];
      if e.build !in models { continue; }
      var key := models[e.build];
      baseline := baseline[key := Get(baseline, key) - (e.After() - e.Before())];
    }
    assert events[..|events|] == events;
  }

  // _model_rank_stability of the campaign report
  method ReportModelStability(current: Scores, log: seq<RatingEvent>, k: int, models: map<Id, Id>)
    returns (out: map<Id, Stability>)
    ensures var n := if k < 0 then 0 else if k < |log| then k else |log|;
            && out == ModelStability(current, log[..n], models, k)
            && forall x :: x in current ==>
                 Describes(out[x], k, n, Lookup(Ranks(current), x),
                           Lookup(Ranks(Subtracted(current, log[..n], models)), x))
  {
    hide Ranks, StabilityOf, Describes;
    ModelsDescribed(current, Window(log, k), models, k);
    var currentRanks := Ranks(current);
    var events := Window(log, k);
    var baseline := Rewind(current, events, models);
    var earliestRanks := Ranks(baseline);
    out := map x | x in current.Keys :: StabilityOf(k, |events|, Lookup(currentRanks, x), Lookup(earliestRanks, x));
  }

  // The publish gate's answer: stable and delta, without the ranks.
  function Verdict(s: Stability): (Option<bool>, Option<nat>) { (s.stable, s.rankDelta) }

  // _model_rank_stability of the publish gate: it answers at once for an empty window, and still
  // agrees with the report.
  method GateModelStability(current: Scores, log: seq<RatingEvent>, k: int, models: map<Id, Id>)
    returns (out: map<Id, (Option<bool>, Option<nat>)>)
    ensures out.Keys == current.Keys
    ensures var n := if k < 0 then 0 else if k < |log| then k else |log|;
            forall x :: x in current ==>
              var reported := ModelStability(current, log[..n], models, k)[x];
              out[x] == (reported.stable, reported.rankDelta)
    ensures forall x :: x in current ==> out[x].0.Some? && out[x].1.Some? && (out[x].0.value <==> out[x].1.value == 0)
  {
    GateAgreesAt(current, Window(log, k), models, k);
    hide Ranks, Subtracted;
    if k <= 0 {
      NothingMoves(current, models);
      return map x | x in current.Keys :: (Some(true), Some(0));
    }
    var baseline := Rewind(current, Window(log, k), models);
    out := GateMoves(current, baseline);
  }

  // The comparison of the two rankings, entry by entry.
  function GateMoves(current: Scores, baseline: Scores): map<Id, (Option<bool>, Option<nat>)>
  {
    var (now, then_) := (Ranks(current), Ranks(baseline));
    map x | x in current.Keys :: GateMove(Lookup(now, x), Lookup(then_, x))
  }

  function GateMove(now: Option<nat>, earliest: Option<nat>): (Option<bool>, Option<nat>)
  {
    if now == None || earliest == None then (None, None)
    else var delta := Distance(now.value, earliest.value); (Some(delta == 0), Some(delta))
  }

  lemma GateAgreesAt(current: Scores, events: seq<RatingEvent>, models: map<Id, Id>, k: int)
    ensures var out := GateMoves(current, Subtracted(current, events, models));
            && out.Keys == current.Keys
            && forall x :: x in current ==>
                 && out[x] == Verdict(ModelStability(current, events, models, k)[x])
                 && out[x].0.Some? && out[x].1.Some? && (out[x].0.value <==> out[x].1.value == 0)
  {
    SubtractedKeeps(current, events, models);
    var baseline := Subtracted(current, events, models);
    RanksAreABijection(current);
    RanksAreABijection(baseline);
    hide Ranks, Subtracted, Distance, GateMove, StabilityOf, Verdict, Lookup;
    forall x | x in current ensures var (now, then_) := (Lookup(Ranks(current), x), Lookup(Ranks(baseline), x));
                                    && GateMove(now, then_) == Verdict(StabilityOf(k, |events|, now, then_))
                                    && GateMove(now, then_).0.Some? && GateMove(now, then_).1.Some?
                                    && (GateMove(now, then_).0.value <==> GateMove(now, then_).1.value == 0) {
      Found(Ranks(current), x);
      Found(Ranks(baseline), x);
      GateMoveAgrees(k, |events|, Lookup(Ranks(current), x), Lookup(Ranks(baseline), x));
    }
  }

  lemma Found(ranks: map<Id, nat>, x: Id)
    requires x in ranks
    ensures Lookup(ranks, x).Some?
  {
  }

  lemma GateMoveAgrees(k: int, updates: nat, now: Option<nat>, earliest: Option<nat>)
    requires now.Some? && earliest.Some?
    ensures GateMove(now, earliest) == Verdict(StabilityOf(k, updates, now, earliest))
    ensures GateMove(now, earliest).0.Some? && GateMove(now, earliest).1.Some?
    ensures GateMove(now, earliest).0.value <==> GateMove(now, earliest).1.value == 0
  {
  }

  lemma NothingMoves(current: Scores, models: map<Id, Id>)
    ensures GateMoves(current, Subtracted(current, [], models)) == map x | x in current.Keys :: (Some(true), Some(0))
  {
    RanksAreABijection(current);
    hide Ranks;
  }

  lemma {:induction false} SubtractedKeeps(current: Scores, events: seq<RatingEvent>, models: map<Id, Id>)
    ensures current.Keys <= Subtracted(current, events, models).Keys
    decreases |events|
  {
    if events != [] { SubtractedKeeps(current, events[..|events| - 1], models); }
  }

  // When every build is its own model and the events are of ranked builds: the two baselines are
  // the same exactly when the recorded changes add up, and then the agent report and the model
  // report show the same movement for everybody.
  lemma SameBaselineSameMoves(current: Scores, events: seq<RatingEvent>, k: int)
    requires forall i: nat :: i < |events| ==> events[i].build in current
    ensures var own := map x | x in current.Keys :: x;
            && (Subtracted(current, events, own) == Overwritten(current, events) <==> AllBalanced(current, events, own))
            && (AllBalanced(current, events, own) ==>
                  forall x :: x in current ==>
                    StabilityOf(k, |events|, Lookup(Ranks(current), x), Lookup(Ranks(Overwritten(current, events)), x))
                    == ModelStability(current, events, own, k)[x])
  {
    var own := map x | x in current.Keys :: x;
    RewindsAgreeIff(current, current, events, own);
    KeysStay(current, events, own);
    hide Ranks, Overwritten, Subtracted, Balanced, StabilityOf, Lookup;
    var a, b := Subtracted(current, events, own), Overwritten(current, events);
    if AllBalanced(current, events, own) {
      forall x | x in current ensures a[x] == b[x] {
        assert x in own && own[x] == x;
        assert Get(b, x) == Get(a, own[x]);
      }
      assert a == b;
    }
  }

  lemma {:induction false} KeysStay(current: Scores, events: seq<RatingEvent>, own: map<Id, Id>)
    requires own == map x | x in current.Keys :: x
    requires forall i: nat :: i < |events| ==> events[i].build in current
    ensures Subtracted(current, events, own).Keys == current.Keys == Overwritten(current, events).Keys
    decreases |events|
  {
    if events != [] {
      var p := events[..|events| - 1];
      assert forall i: nat :: i < |p| ==> p[i] == events[i];
      KeysStay(current, p, own);
      assert events[|events| - 1].build in current;
    }
  }

  // ------------------------------------------------ the score of a model

  datatype Sample = Sample(mu: real, sigma: real, games: int)

  function Weighted(samples: seq<Sample>): seq<Sample>
  {
    if samples == [] then []
    else (if samples[0].games > 0 then [samples[0]] else []) + Weighted(samples[1..])
  }

  function Games(samples: seq<Sample>): int
  {
    if samples == [] then 0 else samples[0].games + Games(samples[1..])
  }

  function MuSum(samples: seq<Sample>): real
  {
    if samples == [] then 0.0 else samples[0].mu * samples[0].games as real + MuSum(samples[1..])
  }

  function SquareSum(samples: seq<Sample>): real
  {
    if samples == [] then 0.0 else Square(samples[0].sigma * samples[0].games as real) + SquareSum(samples[1..])
  }

  function Square(x: real): real { x * x }

  lemma {:induction false} WeightedGames(samples: seq<Sample>)
    ensures Weighted(samples) != [] ==> Games(Weighted(samples)) > 0
    ensures Weighted(samples) == [] ==> Games(Weighted(samples)) == 0
    ensures forall s :: s in Weighted(samples) ==> s in samples && s.games > 0
  {
    if samples != [] {
      WeightedGames(samples[1..]);
      var w := Weighted(samples);
      if samples[0].games > 0 {
        assert w[0] == samples[0] && w[1..] == Weighted(samples[1..]);
      } else {
        assert w == Weighted(samples[1..]);
      }
    }
  }

  // _aggregate_rating as (mu, sigma); root is the square root it takes.
  function AggregateRating(samples: seq<Sample>, root: real): (real, real)
  {
    var weighted := Weighted(samples);
    WeightedGames(samples);
    if weighted == [] then (25.0, 25.0 / 3.0)
    else (MuSum(weighted) / Games(weighted) as real, root / Games(weighted) as real)
  }

  predicate IsRoot(root: real, x: real) { root >= 0.0 && Square(root) == x }

  // A model with one rated build has that build's score, so that the two rewinds start alike.
  lemma SingleBuildScore(sample: Sample, root: real)
    requires sample.games > 0 && sample.sigma >= 0.0 && IsRoot(root, SquareSum(Weighted([sample])))
    ensures AggregateRating([sample], root) == (sample.mu, sample.sigma)
    ensures var (mu, sigma) := AggregateRating([sample], root); Score(mu, sigma) == Score(sample.mu, sample.sigma)
  {
    var g := sample.games as real;
    assert [sample][1..] == [];
    assert Weighted([sample]) == [sample];
    assert SquareSum([sample]) == Square(sample.sigma * g);
    assert MuSum([sample]) == sample.mu * g;
    assert Games([sample]) == sample.games;
    Statistics.Product(sample.sigma, g);
    SameRoot(root, sample.sigma * g);
    hide *;
    Quotient(sample.mu * g, sample.mu, g);
    Quotient(sample.sigma * g, sample.sigma, g);
  }

  lemma SameRoot(x: real, y: real)
    requires x >= 0.0 && y >= 0.0 && Square(x) == Square(y)
    ensures x == y
  {
    Statistics.SquareOrder(x, y);
    Statistics.SquareOrder(y, x);
  }

  // The mean skill of a model lies between those of its rated builds.
  lemma MeanSkillBetween(samples: seq<Sample>, root: real, low: real, high: real)
    requires Weighted(samples) != []
    requires forall s :: s in samples && s.games > 0 ==> low <= s.mu <= high
    ensures low <= AggregateRating(samples, root).0 <= high
  {
    MeanSkill(samples, root);
    hide *;
    var w := Weighted(samples);
    WeightedGames(samples);
    MuSumBetween(w, low, high);
    Statistics.MeanBetween(MuSum(w), Games(w) as real, low, high);
  }

  lemma MeanSkill(samples: seq<Sample>, root: real)
    requires Weighted(samples) != []
    ensures Games(Weighted(samples)) > 0
    ensures AggregateRating(samples, root).0 == MuSum(Weighted(samples)) / Games(Weighted(samples)) as real
  {
    WeightedGames(samples);
    hide Weighted, Games, MuSum;
  }

  lemma {:induction false} MuSumBetween(w: seq<Sample>, low: real, high: real)
    requires forall s :: s in w ==> s.games > 0 && low <= s.mu <= high
    ensures Statistics.Between(MuSum(w), Games(w) as real, low, high)
  {
    if w != [] {
      MuSumBetween(w[1..], low, high);
      assert w[0] in w;
      var g, rest := w[0].games as real, Games(w[1..]) as real;
      assert Games(w) as real == g + rest;
      OneMoreSample(low, w[0].mu, high, g, rest, MuSum(w[1..]));
    }
  }

  lemma OneMoreSample(low: real, mu: real, high: real, g: real, rest: real, sum: real)
    requires low <= mu <= high && g > 0.0 && low * rest <= sum <= high * rest
    ensures low * (g + rest) <= mu * g + sum <= high * (g + rest)
  {
    Times(low, mu, g);
    Times(mu, high, g);
    assert low * (g + rest) == low * g + low * rest;
    assert high * (g + rest) == high * g + high * rest;
  }
}
