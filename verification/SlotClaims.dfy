// One claim: the bounded retry loop of claim_budget_slot, _claim_inference_slot and
// _claim_admission_slot, with other sessions committing anything between its statements.
module SlotClaims {
  import opened Options
  import opened Utils
  import opened Slots
  import opened SlotBudget

  // What other sessions commit just before our k-th statement.  Round r of the loop reads as
  // statement 2r and inserts as statement 2r + 1.
  type Env = nat -> seq<Step>

  datatype Outcome = Claimed(id: nat) | Exhausted | LostEveryRace

  predicate StepBy(step: Step, c: nat) {
    (step.Read? || step.Insert?) && step.claimer == c
  }

  predicate OthersOnly(steps: seq<Step>, me: nat) {
    forall i :: 0 <= i < |steps| ==> !StepBy(steps[i], me)
  }

  ghost predicate OthersEnv(env: Env, me: nat) {
    forall k :: OthersOnly(env(k), me)
  }

  lemma {:induction false} OthersKeepMyPending(caps: Caps, st: State, steps: seq<Step>, me: nat)
    requires OthersOnly(steps, me)
    ensures me in Run(caps, st, steps).pending <==> me in st.pending
    ensures me in st.pending ==> Run(caps, st, steps).pending[me] == st.pending[me]
    decreases |steps|
  {
    if steps != [] {
      assert !StepBy(steps[0], me);
      OthersKeepMyPending(caps, Next(caps, st, steps[0]), steps[1..], me);
    }
  }

  // The loop from round r on: final state and outcome.
  function ClaimRounds(caps: Caps, st: State, me: nat, s: Scope, used: nat, b: Option<string>, env: Env,
                       r: nat): (State, Outcome)
    requires OthersEnv(env, me)
    decreases caps(s) + 1 - r
  {
    if r > caps(s) then (st, LostEveryRace)
    else
      var st1 := Run(caps, st, env(2 * r));
      var st2 := ReadStep(caps, st1, me, s, used, b);
      if Full(caps, st1.rows, s, used) then (st2, Exhausted)
      else
        var st3 := Run(caps, st2, env(2 * r + 1));
        OthersKeepMyPending(caps, st2, env(2 * r + 1), me);
        if st3.pending[me].key !in st3.rows then (InsertStep(st3, me), Claimed(st3.nextId))
        else ClaimRounds(caps, InsertStep(st3, me), me, s, used, b, env, r + 1)
  }

  // The same loop as the steps it commits.
  function ClaimTrace(caps: Caps, st: State, me: nat, s: Scope, used: nat, b: Option<string>, env: Env,
                      r: nat): seq<Step>
    requires OthersEnv(env, me)
    decreases caps(s) + 1 - r
  {
    if r > caps(s) then []
    else
      var st1 := Run(caps, st, env(2 * r));
      var upToRead := env(2 * r) + [Read(me, s, used, b)];
      if Full(caps, st1.rows, s, used) then upToRead
      else
        var st2 := ReadStep(caps, st1, me, s, used, b);
        var st3 := Run(caps, st2, env(2 * r + 1));
        OthersKeepMyPending(caps, st2, env(2 * r + 1), me);
        var upToInsert := upToRead + (env(2 * r + 1) + [Insert(me)]);
        if st3.pending[me].key !in st3.rows then upToInsert
        else upToInsert + ClaimTrace(caps, InsertStep(st3, me), me, s, used, b, env, r + 1)
  }

  lemma RoundIsRun(caps: Caps, st: State, me: nat, s: Scope, used: nat, b: Option<string>, before: seq<Step>,
                   between: seq<Step>)
    ensures var st2 := ReadStep(caps, Run(caps, st, before), me, s, used, b);
            && Run(caps, st, before + [Read(me, s, used, b)]) == st2
            && Run(caps, st, before + [Read(me, s, used, b)] + (between + [Insert(me)]))
               == InsertStep(Run(caps, st2, between), me)
  {
    RunOne(caps, st, before, Read(me, s, used, b));
    var st2 := ReadStep(caps, Run(caps, st, before), me, s, used, b);
    RunOne(caps, st2, between, Insert(me));
    RunConcat(caps, st, before + [Read(me, s, used, b)], between + [Insert(me)]);
  }

  // A claim is a run of the protocol, so every theorem about runs covers it.
  lemma {:induction false} ClaimIsRun(caps: Caps, st: State, me: nat, s: Scope, used: nat, b: Option<string>,
                                      env: Env, r: nat)
    requires OthersEnv(env, me)
    ensures Run(caps, st, ClaimTrace(caps, st, me, s, used, b, env, r))
            == ClaimRounds(caps, st, me, s, used, b, env, r).0
    decreases caps(s) + 1 - r
  {
    if r <= caps(s) {
      RoundIsRun(caps, st, me, s, used, b, env(2 * r), env(2 * r + 1));
      var st1 := Run(caps, st, env(2 * r));
      if !Full(caps, st1.rows, s, used) {
        var st3 := Run(caps, ReadStep(caps, st1, me, s, used, b), env(2 * r + 1));
        OthersKeepMyPending(caps, ReadStep(caps, st1, me, s, used, b), env(2 * r + 1), me);
        if st3.pending[me].key in st3.rows {
          var st4 := InsertStep(st3, me);
          ClaimIsRun(caps, st4, me, s, used, b, env, r + 1);
          RunConcat(caps, st, env(2 * r) + [Read(me, s, used, b)] + (env(2 * r + 1) + [Insert(me)]),
                    ClaimTrace(caps, st4, me, s, used, b, env, r + 1));
        }
      }
    }
  }

  // ------------------------------------------------ when the retries are enough

  // Live rows of s that a step takes away.
  function FreedBy(caps: Caps, st: State, step: Step, s: Scope): nat {
    |Live(st.rows, s) - Live(Next(caps, st, step).rows, s)|
  }

  function FreedIn(caps: Caps, st: State, steps: seq<Step>, s: Scope): nat
    decreases |steps|
  {
    if steps == [] then 0
    else FreedBy(caps, st, steps[0], s) + FreedIn(caps, Next(caps, st, steps[0]), steps[1..], s)
  }

  lemma {:induction false} FreedConcat(caps: Caps, st: State, a: seq<Step>, b: seq<Step>, s: Scope)
    ensures FreedIn(caps, st, a + b, s) == FreedIn(caps, st, a, s) + FreedIn(caps, Run(caps, st, a), b, s)
    decreases |a|
  {
    if a == [] {
      assert a + b == b;
    } else {
      assert (a + b)[0] == a[0] && (a + b)[1..] == a[1..] + b;
      FreedConcat(caps, Next(caps, st, a[0]), a[1..], b, s);
    }
  }

  lemma SetBalance(before: set<nat>, after: set<nat>)
    ensures |after| == |before| - |before - after| + |after - before|
  {
    assert before == (before - after) + (before * after);
    assert after == (after - before) + (before * after);
  }

  // An index that was free and is now taken was filled by a live insert.
  lemma StepBalance(caps: Caps, st: State, step: Step, s: Scope, i: nat)
    ensures var after := Next(caps, st, step);
            |Live(after.rows, s)| + FreedBy(caps, st, step, s) >=
            |Live(st.rows, s)| + (if Key(s, i) !in st.rows && Key(s, i) in after.rows then 1 else 0)
  {
    var after := Next(caps, st, step);
    SetBalance(Live(st.rows, s), Live(after.rows, s));
    if Key(s, i) !in st.rows && Key(s, i) in after.rows {
      assert step.Insert?;
      assert !after.rows[Key(s, i)].released;
      assert i in Live(after.rows, s) - Live(st.rows, s);
    }
  }

  lemma {:induction false} RunBalance(caps: Caps, st: State, steps: seq<Step>, s: Scope, i: nat)
    ensures var after := Run(caps, st, steps);
            |Live(after.rows, s)| + FreedIn(caps, st, steps, s) >=
            |Live(st.rows, s)| + (if Key(s, i) !in st.rows && Key(s, i) in after.rows then 1 else 0)
    decreases |steps|
  {
    if steps != [] {
      StepBalance(caps, st, steps[0], s, i);
      RunBalance(caps, Next(caps, st, steps[0]), steps[1..], s, i);
    }
  }

  // A step that leaves the live rows of s in place frees none of them.
  lemma FreesNone(caps: Caps, st: State, step: Step, s: Scope)
    requires Live(st.rows, s) <= Live(Next(caps, st, step).rows, s)
    ensures FreedIn(caps, st, [step], s) == 0
  {
    assert Live(st.rows, s) - Live(Next(caps, st, step).rows, s) == {};
    assert FreedIn(caps, Next(caps, st, step), [step][1..], s) == 0;
  }

  lemma InsertFreesNone(caps: Caps, st: State, c: nat, s: Scope)
    ensures Live(st.rows, s) <= Live(Next(caps, st, Insert(c)).rows, s)
    ensures FreedIn(caps, st, [Insert(c)], s) == 0
  {
    var after := Next(caps, st, Insert(c));
    forall j | j in Live(st.rows, s) ensures j in Live(after.rows, s) {
      assert Key(s, j) in st.rows;
      assert Key(s, j) in after.rows;
    }
    FreesNone(caps, st, Insert(c), s);
  }

  // The state after the first half and after the whole of round r.
  function AfterRead(caps: Caps, st: State, me: nat, s: Scope, used: nat, b: Option<string>, env: Env, r: nat): State {
    ReadStep(caps, Run(caps, st, env(2 * r)), me, s, used, b)
  }

  function AfterRound(caps: Caps, st: State, me: nat, s: Scope, used: nat, b: Option<string>, env: Env, r: nat): State {
    InsertStep(Run(caps, AfterRead(caps, st, me, s, used, b, env, r), env(2 * r + 1)), me)
  }

  function RoundSteps(me: nat, s: Scope, used: nat, b: Option<string>, env: Env, r: nat): seq<Step> {
    env(2 * r) + [Read(me, s, used, b)] + (env(2 * r + 1) + [Insert(me)])
  }

  // Round r is lost: the read finds room, but the index is gone at the insert.
  predicate Loses(caps: Caps, st: State, me: nat, s: Scope, used: nat, b: Option<string>, env: Env, r: nat) {
    var st1 := Run(caps, st, env(2 * r));
    var st3 := Run(caps, AfterRead(caps, st, me, s, used, b, env, r), env(2 * r + 1));
    && !Full(caps, st1.rows, s, used)
    && Key(s, NextFree(used, Physical(st1.rows, s))) in st3.rows
  }

  // A lost round: one more live row, unless something was freed.
  lemma LostRound(caps: Caps, st: State, me: nat, s: Scope, used: nat, b: Option<string>, env: Env, r: nat)
    requires OthersEnv(env, me) && Loses(caps, st, me, s, used, b, env, r)
    ensures var freed := FreedIn(caps, st, RoundSteps(me, s, used, b, env, r), s);
            && |Live(AfterRound(caps, st, me, s, used, b, env, r).rows, s)| + freed >= |Live(st.rows, s)| + 1
            && used + |Live(st.rows, s)| < caps(s) + freed
  {
    var read, before, last := Read(me, s, used, b), env(2 * r), env(2 * r + 1) + [Insert(me)];
    var st1 := Run(caps, st, before);
    var st2 := AfterRead(caps, st, me, s, used, b, env, r);
    var i := NextFree(used, Physical(st1.rows, s));
    FreeKeyAbsent(st1.rows, s, used);
    RunBalance(caps, st, before, s, i);
    RunOne(caps, st, before, read);
    FreedConcat(caps, st, before, [read], s);
    FreesNone(caps, st1, read, s);
    OthersKeepMyPending(caps, st2, env(2 * r + 1), me);
    RunOne(caps, st2, env(2 * r + 1), Insert(me));
    RunBalance(caps, st2, last, s, i);
    FreedConcat(caps, st, before + [read], last, s);
  }

  lemma RoundEnds(caps: Caps, st: State, me: nat, s: Scope, used: nat, b: Option<string>, env: Env, r: nat)
    ensures Run(caps, st, RoundSteps(me, s, used, b, env, r)) == AfterRound(caps, st, me, s, used, b, env, r)
  {
    RoundIsRun(caps, st, me, s, used, b, env(2 * r), env(2 * r + 1));
  }

  lemma UnrollLost(caps: Caps, st: State, me: nat, s: Scope, used: nat, b: Option<string>, env: Env, r: nat)
    requires OthersEnv(env, me) && r <= caps(s)
    ensures ClaimRounds(caps, st, me, s, used, b, env, r).1 == LostEveryRace ==> Loses(caps, st, me, s, used, b, env, r)
    ensures Loses(caps, st, me, s, used, b, env, r) ==>
              var st4 := AfterRound(caps, st, me, s, used, b, env, r);
              && ClaimRounds(caps, st, me, s, used, b, env, r) == ClaimRounds(caps, st4, me, s, used, b, env, r + 1)
              && ClaimTrace(caps, st, me, s, used, b, env, r)
                 == RoundSteps(me, s, used, b, env, r) + ClaimTrace(caps, st4, me, s, used, b, env, r + 1)
  {
    OthersKeepMyPending(caps, AfterRead(caps, st, me, s, used, b, env, r), env(2 * r + 1), me);
  }

  lemma ClaimOver(caps: Caps, st: State, me: nat, s: Scope, used: nat, b: Option<string>, env: Env)
    requires OthersEnv(env, me)
    ensures ClaimRounds(caps, st, me, s, used, b, env, caps(s) + 1) == (st, LostEveryRace)
    ensures FreedIn(caps, st, ClaimTrace(caps, st, me, s, used, b, env, caps(s) + 1), s) == 0
  {
  }

  // Running out of retries needs rows to be freed meanwhile: at least one more than the
  // implicit and live slots the claim started from.
  lemma {:induction false} LosingEveryRaceNeedsFrees(caps: Caps, st: State, me: nat, s: Scope, used: nat,
                                                     b: Option<string>, env: Env, r: nat)
    requires OthersEnv(env, me) && r <= caps(s)
    requires ClaimRounds(caps, st, me, s, used, b, env, r).1 == LostEveryRace
    ensures FreedIn(caps, st, ClaimTrace(caps, st, me, s, used, b, env, r), s) >= used + |Live(st.rows, s)| + 1 - r
    decreases caps(s) + 1 - r
  {
    hide *;
    UnrollLost(caps, st, me, s, used, b, env, r);
    LostRound(caps, st, me, s, used, b, env, r);
    RoundEnds(caps, st, me, s, used, b, env, r);
    var st4 := AfterRound(caps, st, me, s, used, b, env, r);
    FreedConcat(caps, st, RoundSteps(me, s, used, b, env, r), ClaimTrace(caps, st4, me, s, used, b, env, r + 1), s);
    if r < caps(s) {
      LosingEveryRaceNeedsFrees(caps, st4, me, s, used, b, env, r + 1);
    }
  }

  // An adversary that takes every index just read, and from the round in which the scope would be
  // full on releases its last row first.  `base` is the next row id and `room` the number of free
  // slots it starts from.
  function Adversary(s: Scope, used: nat, other: nat, base: nat, room: nat): Env {
    (k: nat) =>
      if k % 2 == 1 then [Read(other, s, used, None), Insert(other)]
      else if 2 <= k && k / 2 >= room then [ReleaseId(base + k / 2 - 1)]
      else []
  }

  // Ids are distinct and below n, as every run keeps them (SlotOwnership.RunKeepsIds).
  ghost predicate IdsBelow(rows: Rows, n: nat) {
    && (forall k :: k in rows ==> rows[k].id < n)
    && (forall k, l :: k in rows && l in rows && rows[k].id == rows[l].id ==> k == l)
  }

  // Row id is live in s.
  predicate LiveRow(rows: Rows, s: Scope, k: Key, id: nat) {
    k in rows && k.scope == s && rows[k].id == id && !rows[k].released
  }

  ghost predicate IsLive(rows: Rows, s: Scope, id: nat) {
    exists k :: LiveRow(rows, s, k, id)
  }

  // The state the adversary has brought about before round r.
  ghost predicate AdversaryAt(caps: Caps, st: State, s: Scope, used: nat, base: nat, room: nat, r: nat)
    requires used + room <= caps(s)
  {
    && st.nextId == base + r
    && |Live(st.rows, s)| == caps(s) - used - room + MinNat(r, room)
    && IdsBelow(st.rows, base + r)
    && (r > 0 ==> IsLive(st.rows, s, base + r - 1))
  }

  lemma ReleaseOneRow(caps: Caps, st: State, s: Scope, k: Key, id: nat, n: nat)
    requires LiveRow(st.rows, s, k, id) && IdsBelow(st.rows, n)
    ensures var steps := [ReleaseId(id)];
            var after := Run(caps, st, steps);
            && after.nextId == st.nextId
            && IdsBelow(after.rows, n)
            && |Live(after.rows, s)| == |Live(st.rows, s)| - 1
            && FreedIn(caps, st, steps, s) == 1
  {
    var step := ReleaseId(id);
    var after := Next(caps, st, step);
    assert k.index in Live(st.rows, s);
    forall j | j in Live(st.rows, s) - {k.index} ensures j in Live(after.rows, s) {
      assert Key(s, j) in after.rows && Key(s, j) != k;
    }
    assert Live(after.rows, s) == Live(st.rows, s) - {k.index};
    assert Live(st.rows, s) - Live(after.rows, s) == {k.index};
    assert [step][1..] == [];
    assert FreedIn(caps, after, [], s) == 0;
  }

  lemma AdversaryMoves(s: Scope, used: nat, other: nat, base: nat, room: nat, r: nat)
    requires room > 0
    ensures Adversary(s, used, other, base, room)(2 * r) == if r >= room then [ReleaseId(base + r - 1)] else []
    ensures Adversary(s, used, other, base, room)(2 * r + 1) == [Read(other, s, used, None), Insert(other)]
  {
    assert (2 * r) % 2 == 0 && (2 * r) / 2 == r && (2 * r + 1) % 2 == 1;
  }

  // Before the read of round r the adversary leaves room for exactly the read to pass.
  ghost predicate RoomMade(caps: Caps, st: State, s: Scope, used: nat, base: nat, room: nat, r: nat, before: seq<Step>)
    requires 0 < room && used + room <= caps(s)
  {
    var st1 := Run(caps, st, before);
    && st1.nextId == base + r
    && !Full(caps, st1.rows, s, used)
    && |Live(st1.rows, s)| == caps(s) - used - room + MinNat(r, room - 1)
    && IdsBelow(st1.rows, base + r)
    && FreedIn(caps, st, before, s) == (if r >= room then 1 else 0)
  }

  lemma AdversaryBeforeRead(caps: Caps, st: State, s: Scope, used: nat, other: nat, base: nat, room: nat, r: nat)
    requires 0 < room && used + room <= caps(s) && AdversaryAt(caps, st, s, used, base, room, r)
    ensures RoomMade(caps, st, s, used, base, room, r, Adversary(s, used, other, base, room)(2 * r))
  {
    hide *;
    AdversaryMoves(s, used, other, base, room, r);
    if r >= room {
      AdversaryReleases(caps, st, s, used, base, room, r);
    } else {
      AdversaryRests(caps, st, s, used, base, room, r);
    }
  }

  lemma AdversaryReleases(caps: Caps, st: State, s: Scope, used: nat, base: nat, room: nat, r: nat)
    requires 0 < room <= r && used + room <= caps(s) && AdversaryAt(caps, st, s, used, base, room, r)
    ensures RoomMade(caps, st, s, used, base, room, r, [ReleaseId(base + r - 1)])
  {
    hide Run, FreedIn, Live, IdsBelow, Next, Full, LiveRow;
    var k :| LiveRow(st.rows, s, k, base + r - 1);
    ReleaseOneRow(caps, st, s, k, base + r - 1, base + r);
    RoomLeft(caps, Run(caps, st, [ReleaseId(base + r - 1)]).rows, s, used);
  }

  lemma AdversaryRests(caps: Caps, st: State, s: Scope, used: nat, base: nat, room: nat, r: nat)
    requires r < room && used + room <= caps(s) && AdversaryAt(caps, st, s, used, base, room, r)
    ensures RoomMade(caps, st, s, used, base, room, r, [])
  {
    hide Live, IdsBelow, Full;
    NoSteps(caps, st, s);
    RoomLeft(caps, st.rows, s, used);
  }

  lemma RoomLeft(caps: Caps, rows: Rows, s: Scope, used: nat)
    ensures |Live(rows, s)| + used < caps(s) ==> !Full(caps, rows, s, used)
  {
  }

  lemma NoSteps(caps: Caps, st: State, s: Scope)
    ensures Run(caps, st, []) == st && FreedIn(caps, st, [], s) == 0
  {
  }

  lemma ClaimPair(caps: Caps, st: State, c: nat, s: Scope, used: nat, b: Option<string>)
    ensures Run(caps, st, [Read(c, s, used, b), Insert(c)]) == InsertStep(ReadStep(caps, st, c, s, used, b), c)
    ensures FreedIn(caps, st, [Read(c, s, used, b), Insert(c)], s) == 0
  {
    var read := Read(c, s, used, b);
    RunPair(caps, st, read, Insert(c));
    var mid := Next(caps, st, read);
    assert mid.rows == st.rows;
    InsertFreesNone(caps, mid, c, s);
    assert [read, Insert(c)][1..] == [Insert(c)];
    assert FreedBy(caps, st, read, s) == 0 by { assert Live(st.rows, s) - Live(mid.rows, s) == {}; }
  }

  lemma IdsBelowAfterInsert(rows: Rows, s: Scope, n: nat, i: nat, row: Row)
    requires IdsBelow(rows, n) && row.id == n && Key(s, i) !in rows
    ensures IdsBelow(rows[Key(s, i) := row], n + 1)
  {
  }

  // ... and then takes the index the claimer is about to insert.
  lemma AdversaryBetween(caps: Caps, st2: State, s: Scope, used: nat, other: nat)
    requires !Full(caps, st2.rows, s, used) && IdsBelow(st2.rows, st2.nextId)
    ensures var i := NextFree(used, Physical(st2.rows, s));
            var between := [Read(other, s, used, None), Insert(other)];
            var st3 := Run(caps, st2, between);
            && st3.rows == st2.rows[Key(s, i) := Row(st2.nextId, None, None, None, false)]
            && st3.nextId == st2.nextId + 1
            && |Live(st3.rows, s)| == |Live(st2.rows, s)| + 1
            && IdsBelow(st3.rows, st3.nextId)
            && FreedIn(caps, st2, between, s) == 0
  {
    hide *;
    ClaimOnce(caps, st2, other, s, used, None);
    ClaimPair(caps, st2, other, s, used, None);
    IdsBelowAfterInsert(st2.rows, s, st2.nextId, NextFree(used, Physical(st2.rows, s)),
                        Row(st2.nextId, None, None, None, false));
  }

  lemma RoundFreed(caps: Caps, st: State, me: nat, s: Scope, used: nat, b: Option<string>, env: Env, r: nat)
    ensures var st2 := AfterRead(caps, st, me, s, used, b, env, r);
            FreedIn(caps, st, RoundSteps(me, s, used, b, env, r), s)
            == FreedIn(caps, st, env(2 * r), s) + FreedIn(caps, st2, env(2 * r + 1), s)
  {
    var read := Read(me, s, used, b);
    var st1 := Run(caps, st, env(2 * r));
    var st2 := AfterRead(caps, st, me, s, used, b, env, r);
    RunOne(caps, st, env(2 * r), read);
    FreesNone(caps, st1, read, s);
    FreedConcat(caps, st, env(2 * r), [read], s);
    InsertFreesNone(caps, Run(caps, st2, env(2 * r + 1)), me, s);
    FreedConcat(caps, st2, env(2 * r + 1), [Insert(me)], s);
    FreedConcat(caps, st, env(2 * r) + [read], env(2 * r + 1) + [Insert(me)], s);
  }

  // The round is lost, and the other session's new row stays.
  lemma LosingState(caps: Caps, st: State, me: nat, s: Scope, used: nat, b: Option<string>, env: Env, r: nat, row: Row)
    requires OthersEnv(env, me)
    requires !Full(caps, Run(caps, st, env(2 * r)).rows, s, used)
    requires var st2 := AfterRead(caps, st, me, s, used, b, env, r);
             Run(caps, st2, env(2 * r + 1)).rows == st2.rows[Key(s, NextFree(used, Physical(st2.rows, s))) := row]
    ensures Loses(caps, st, me, s, used, b, env, r)
    ensures var st2 := AfterRead(caps, st, me, s, used, b, env, r);
            var (st3, st4) := (Run(caps, st2, env(2 * r + 1)), AfterRound(caps, st, me, s, used, b, env, r));
            st4.rows == st3.rows && st4.nextId == st3.nextId
  {
    OthersKeepMyPending(caps, AfterRead(caps, st, me, s, used, b, env, r), env(2 * r + 1), me);
  }

  lemma AdversaryRound(caps: Caps, st: State, me: nat, s: Scope, used: nat, b: Option<string>, other: nat,
                       base: nat, room: nat, r: nat)
    requires 0 < room && used + room <= caps(s) && AdversaryAt(caps, st, s, used, base, room, r)
    requires OthersEnv(Adversary(s, used, other, base, room), me)
    ensures var env := Adversary(s, used, other, base, room);
            && Loses(caps, st, me, s, used, b, env, r)
            && AdversaryAt(caps, AfterRound(caps, st, me, s, used, b, env, r), s, used, base, room, r + 1)
            && FreedIn(caps, st, RoundSteps(me, s, used, b, env, r), s) == (if r >= room then 1 else 0)
  {
    hide Run, FreedIn, Live, Physical, NextFree, Next, IdsBelow, OthersEnv, Loses, AfterRound, Adversary;
    var env := Adversary(s, used, other, base, room);
    AdversaryBeforeRead(caps, st, s, used, other, base, room, r);
    AdversaryMoves(s, used, other, base, room, r);
    var st2 := AfterRead(caps, st, me, s, used, b, env, r);
    assert st2.rows == Run(caps, st, env(2 * r)).rows;
    AdversaryBetween(caps, st2, s, used, other);
    var row := Row(st2.nextId, None, None, None, false);
    LosingState(caps, st, me, s, used, b, env, r, row);
    RoundFreed(caps, st, me, s, used, b, env, r);
    var st4 := AfterRound(caps, st, me, s, used, b, env, r);
    assert LiveRow(st4.rows, s, Key(s, NextFree(used, Physical(st2.rows, s))), base + r);
  }

  lemma {:induction false} AdversaryWins(caps: Caps, st: State, me: nat, s: Scope, used: nat, b: Option<string>,
                                         other: nat, base: nat, room: nat, r: nat)
    requires 0 < room && used + room <= caps(s) && r <= caps(s) && AdversaryAt(caps, st, s, used, base, room, r)
    requires OthersEnv(Adversary(s, used, other, base, room), me)
    ensures var env := Adversary(s, used, other, base, room);
            && ClaimRounds(caps, st, me, s, used, b, env, r).1 == LostEveryRace
            && FreedIn(caps, st, ClaimTrace(caps, st, me, s, used, b, env, r), s)
               == caps(s) + 1 - (if r <= room then room else r)
    decreases caps(s) + 1 - r
  {
    hide *;
    var env := Adversary(s, used, other, base, room);
    AdversaryRound(caps, st, me, s, used, b, other, base, room, r);
    UnrollLost(caps, st, me, s, used, b, env, r);
    RoundEnds(caps, st, me, s, used, b, env, r);
    var st4 := AfterRound(caps, st, me, s, used, b, env, r);
    FreedConcat(caps, st, RoundSteps(me, s, used, b, env, r), ClaimTrace(caps, st4, me, s, used, b, env, r + 1), s);
    if r < caps(s) {
      AdversaryWins(caps, st4, me, s, used, b, other, base, room, r + 1);
    } else {
      ClaimOver(caps, st4, me, s, used, b, env);
    }
  }

  lemma AdversaryIsOther(s: Scope, used: nat, me: nat, other: nat, base: nat, room: nat)
    requires me != other
    ensures OthersEnv(Adversary(s, used, other, base, room), me)
  {
  }

  // ------------------------------------------------ a full scope is made room in first

  // The same environment, but `first` is committed before anything else.
  function Preceded(first: seq<Step>, env: Env): Env {
    (k: nat) => if k == 0 then first + env(0) else env(k)
  }

  lemma {:induction false} SameLater(caps: Caps, st: State, me: nat, s: Scope, used: nat, b: Option<string>, e1: Env,
                                     e2: Env, r: nat)
    requires OthersEnv(e1, me) && OthersEnv(e2, me) && forall k :: k >= 2 * r ==> e1(k) == e2(k)
    ensures ClaimRounds(caps, st, me, s, used, b, e1, r) == ClaimRounds(caps, st, me, s, used, b, e2, r)
    ensures ClaimTrace(caps, st, me, s, used, b, e1, r) == ClaimTrace(caps, st, me, s, used, b, e2, r)
    decreases caps(s) + 1 - r
  {
    hide Run, ReadStep, InsertStep, Full;
    if r <= caps(s) {
      SameLater(caps, AfterRound(caps, st, me, s, used, b, e1, r), me, s, used, b, e1, e2, r + 1);
      OthersKeepMyPending(caps, AfterRead(caps, st, me, s, used, b, e1, r), e1(2 * r + 1), me);
    }
  }

  lemma PrecededIsOther(first: seq<Step>, env: Env, me: nat)
    requires OthersEnv(env, me) && OthersOnly(first, me)
    ensures var p := Preceded(first, env);
            OthersEnv(p, me) && p(2 * 0) == first + env(2 * 0) && forall k: nat :: k >= 1 ==> p(k) == env(k)
  {
    var p := Preceded(first, env);
    forall k ensures OthersOnly(p(k), me) {
      assert OthersOnly(env(k), me);
    }
  }

  lemma PrecededRound(caps: Caps, st: State, me: nat, s: Scope, used: nat, b: Option<string>, first: seq<Step>,
                      env: Env, p: Env)
    requires p(2 * 0) == first + env(2 * 0) && p(2 * 0 + 1) == env(2 * 0 + 1)
    requires Loses(caps, Run(caps, st, first), me, s, used, b, env, 0)
    ensures Loses(caps, st, me, s, used, b, p, 0)
    ensures AfterRound(caps, st, me, s, used, b, p, 0) == AfterRound(caps, Run(caps, st, first), me, s, used, b, env, 0)
    ensures RoundSteps(me, s, used, b, p, 0) == first + RoundSteps(me, s, used, b, env, 0)
  {
    RunConcat(caps, st, first, env(2 * 0));
    PrecededSteps(me, s, used, b, first, env, p);
    hide Run, ReadStep, InsertStep, Full, Physical, NextFree, RoundSteps;
    assert AfterRead(caps, st, me, s, used, b, p, 0) == AfterRead(caps, Run(caps, st, first), me, s, used, b, env, 0);
  }

  lemma PrecededSteps(me: nat, s: Scope, used: nat, b: Option<string>, first: seq<Step>, env: Env, p: Env)
    requires p(2 * 0) == first + env(2 * 0) && p(2 * 0 + 1) == env(2 * 0 + 1)
    ensures RoundSteps(me, s, used, b, p, 0) == first + RoundSteps(me, s, used, b, env, 0)
  {
  }

  lemma PrecededIsShift(caps: Caps, st: State, me: nat, s: Scope, used: nat, b: Option<string>, first: seq<Step>,
                        env: Env, p: Env)
    requires OthersEnv(env, me) && OthersEnv(p, me)
    requires p(2 * 0) == first + env(2 * 0) && forall k: nat :: k >= 1 ==> p(k) == env(k)
    requires Loses(caps, Run(caps, st, first), me, s, used, b, env, 0)
    ensures ClaimRounds(caps, st, me, s, used, b, p, 0)
            == ClaimRounds(caps, Run(caps, st, first), me, s, used, b, env, 0)
    ensures ClaimTrace(caps, st, me, s, used, b, p, 0)
            == first + ClaimTrace(caps, Run(caps, st, first), me, s, used, b, env, 0)
  {
    hide *;
    var st0 := Run(caps, st, first);
    PrecededRound(caps, st, me, s, used, b, first, env, p);
    var st4 := AfterRound(caps, st0, me, s, used, b, env, 0);
    UnrollLost(caps, st, me, s, used, b, p, 0);
    UnrollLost(caps, st0, me, s, used, b, env, 0);
    SameLater(caps, st4, me, s, used, b, p, env, 1);
    var steps, rest := RoundSteps(me, s, used, b, env, 0), ClaimTrace(caps, st4, me, s, used, b, env, 1);
    assert (first + steps) + rest == first + (steps + rest);
  }

  // x live rows of s can be released one by one.
  lemma {:induction false} ReleaseSome(caps: Caps, st: State, s: Scope, x: nat, me: nat) returns (steps: seq<Step>)
    requires x <= |Live(st.rows, s)| && IdsBelow(st.rows, st.nextId)
    ensures OthersOnly(steps, me)
    ensures var after := Run(caps, st, steps);
            && after.nextId == st.nextId && IdsBelow(after.rows, st.nextId)
            && |Live(after.rows, s)| == |Live(st.rows, s)| - x
            && FreedIn(caps, st, steps, s) == x
    decreases x
  {
    hide *;
    if x == 0 {
      NoSteps(caps, st, s);
      NobodySteps(me);
      return [];
    }
    var k, id := SomeLiveRow(st.rows, s);
    var step := ReleaseId(id);
    ReleaseOneRow(caps, st, s, k, id, st.nextId);
    var mid := Run(caps, st, [step]);
    var rest := ReleaseSome(caps, mid, s, x - 1, me);
    RunConcat(caps, st, [step], rest);
    FreedConcat(caps, st, [step], rest, s);
    OthersToo(step, rest, me);
    steps := [step] + rest;
  }

  lemma SomeLiveRow(rows: Rows, s: Scope) returns (k: Key, id: nat)
    requires |Live(rows, s)| > 0
    ensures LiveRow(rows, s, k, id)
  {
    var i :| i in Live(rows, s);
    k := Key(s, i);
    id := rows[k].id;
  }

  lemma NobodySteps(me: nat)
    ensures OthersOnly([], me)
  {
  }

  lemma OthersToo(step: Step, rest: seq<Step>, me: nat)
    requires step.ReleaseId? && OthersOnly(rest, me)
    ensures OthersOnly([step] + rest, me)
  {
  }

  // Some environment makes the claim lose every round while freeing one row more than the slots
  // implicitly used or live at its start.
  lemma SomeEnvironmentWins(caps: Caps, st: State, me: nat, s: Scope, used: nat, b: Option<string>) returns (env: Env)
    requires used < caps(s) && IdsBelow(st.rows, st.nextId)
    ensures OthersEnv(env, me)
    ensures ClaimRounds(caps, st, me, s, used, b, env, 0).1 == LostEveryRace
    ensures FreedIn(caps, st, ClaimTrace(caps, st, me, s, used, b, env, 0), s) == used + |Live(st.rows, s)| + 1
  {
    hide *;
    var live := |Live(st.rows, s)|;
    var excess := if used + live < caps(s) then 0 else used + live + 1 - caps(s);
    var room: nat := caps(s) - used - (live - excess);
    var first := ReleaseSome(caps, st, s, excess, me);
    var st0 := Run(caps, st, first);
    var other := me + 1;
    var adversary := Adversary(s, used, other, st.nextId, room);
    AdversaryStarts(caps, st0, s, used, st.nextId, room);
    AdversaryIsOther(s, used, me, other, st.nextId, room);
    AdversaryWins(caps, st0, me, s, used, b, other, st.nextId, room, 0);
    UnrollLost(caps, st0, me, s, used, b, adversary, 0);
    PrecededIsOther(first, adversary, me);
    env := Preceded(first, adversary);
    PrecededIsShift(caps, st, me, s, used, b, first, adversary, env);
    FreedConcat(caps, st, first, ClaimTrace(caps, st0, me, s, used, b, adversary, 0), s);
  }

  lemma AdversaryStarts(caps: Caps, st: State, s: Scope, used: nat, base: nat, room: nat)
    requires used + room <= caps(s) && st.nextId == base && IdsBelow(st.rows, base)
    requires |Live(st.rows, s)| == caps(s) - used - room
    ensures AdversaryAt(caps, st, s, used, base, room, 0)
  {
  }

  // cap + 1 rounds are enough for a claim, whatever the others do, exactly as long as they free
  // no more rows than the slots implicitly used or live when it starts.
  lemma RetriesSufficeIff(caps: Caps, st: State, me: nat, s: Scope, used: nat, b: Option<string>, freed: nat)
    requires used < caps(s) && IdsBelow(st.rows, st.nextId)
    ensures (forall env: Env | OthersEnv(env, me)
                             && FreedIn(caps, st, ClaimTrace(caps, st, me, s, used, b, env, 0), s) <= freed ::
               ClaimRounds(caps, st, me, s, used, b, env, 0).1 != LostEveryRace)
            <==> freed <= used + |Live(st.rows, s)|
  {
    hide *;
    forall env: Env | OthersEnv(env, me)
                    && FreedIn(caps, st, ClaimTrace(caps, st, me, s, used, b, env, 0), s) <= used + |Live(st.rows, s)|
      ensures ClaimRounds(caps, st, me, s, used, b, env, 0).1 != LostEveryRace
    {
      if ClaimRounds(caps, st, me, s, used, b, env, 0).1 == LostEveryRace {
        LosingEveryRaceNeedsFrees(caps, st, me, s, used, b, env, 0);
      }
    }
    var env := SomeEnvironmentWins(caps, st, me, s, used, b);
  }

  // A claim whose surroundings free nothing always decides: it is denied exactly when the
  // scope is full, otherwise it leaves one new live row carrying its binding.
  lemma {:induction false} UndisturbedClaimDecides(caps: Caps, st: State, me: nat, s: Scope, used: nat,
                                                   b: Option<string>, env: Env)
    requires OthersEnv(env, me)
    requires FreedIn(caps, st, ClaimTrace(caps, st, me, s, used, b, env, 0), s) <= used + |Live(st.rows, s)|
    ensures var (after, o) := ClaimRounds(caps, st, me, s, used, b, env, 0);
            && !o.LostEveryRace?
            && (o.Exhausted? ==> Full(caps, after.rows, s, used))
            && (o.Claimed? ==> NewRow(after, me, s, b, o.id))
  {
    if ClaimRounds(caps, st, me, s, used, b, env, 0).1 == LostEveryRace {
      LosingEveryRaceNeedsFrees(caps, st, me, s, used, b, env, 0);
    }
    ClaimOutcome(caps, st, me, s, used, b, env, 0);
  }

  // Row id is live in s, at the key of the last log entry, written by `me`.
  predicate NewRow(st: State, me: nat, s: Scope, b: Option<string>, id: nat) {
    && |st.log| > 0
    && var e := st.log[|st.log| - 1];
    && e.id == id && e.claimer == me && e.key.scope == s
    && e.key in st.rows && st.rows[e.key] == Row(id, b, None, None, false)
  }

  // One round: what it decides is right, or it goes on to the next.
  lemma RoundDecides(caps: Caps, st: State, me: nat, s: Scope, used: nat, b: Option<string>, env: Env, r: nat)
    requires OthersEnv(env, me) && r <= caps(s)
    ensures var (after, o) := ClaimRounds(caps, st, me, s, used, b, env, r);
            || (o.Exhausted? && Full(caps, after.rows, s, used))
            || (o.Claimed? && NewRow(after, me, s, b, o.id))
            || (after, o) == ClaimRounds(caps, AfterRound(caps, st, me, s, used, b, env, r), me, s, used, b, env, r + 1)
  {
    OthersKeepMyPending(caps, AfterRead(caps, st, me, s, used, b, env, r), env(2 * r + 1), me);
    hide Run, Live, Physical, NextFree, Next;
  }

  // Whatever the others do: a denial by the cap was true when it was returned.
  lemma {:induction false} ClaimOutcome(caps: Caps, st: State, me: nat, s: Scope, used: nat, b: Option<string>,
                                        env: Env, r: nat)
    requires OthersEnv(env, me)
    ensures var (after, o) := ClaimRounds(caps, st, me, s, used, b, env, r);
            && (o.Exhausted? ==> Full(caps, after.rows, s, used))
            && (o.Claimed? ==> NewRow(after, me, s, b, o.id))
    decreases caps(s) + 1 - r
  {
    hide *;
    if r <= caps(s) {
      RoundDecides(caps, st, me, s, used, b, env, r);
      ClaimOutcome(caps, AfterRound(caps, st, me, s, used, b, env, r), me, s, used, b, env, r + 1);
    } else {
      ClaimPast(caps, st, me, s, used, b, env, r);
    }
  }

  lemma ClaimPast(caps: Caps, st: State, me: nat, s: Scope, used: nat, b: Option<string>, env: Env, r: nat)
    requires OthersEnv(env, me) && r > caps(s)
    ensures ClaimRounds(caps, st, me, s, used, b, env, r) == (st, LostEveryRace)
  {
  }
}
