// Which rows a session wrote, and what other sessions may do to them.
module SlotOwnership {
  import opened Options
  import opened Slots
  import opened SlotClaims

  // Row ids are fresh and distinct, as uuid4 keys are.
  ghost predicate IdsOk(st: State) {
    && IdsBelow(st.rows, st.nextId)
    && (forall e :: e in st.log ==> e.id < st.nextId)
  }

  // Ids that `me` inserted since the log had length n.
  function Mine(st: State, me: nat, n: nat): set<nat> {
    set i | n <= i < |st.log| && st.log[i].claimer == me :: st.log[i].id
  }

  lemma NothingMineYet(st: State, me: nat)
    ensures Mine(st, me, |st.log|) == {}
  {
  }

  // Bind, release by id and hard delete name rows of a decision the session itself made.
  ghost predicate Respects(st: State, step: Step, me: nat) {
    (step.Delete? || step.Bind? || step.ReleaseId?) ==>
      forall e :: e in st.log && e.id == step.id ==> e.claimer != me
  }

  ghost predicate RespectfulRun(caps: Caps, st: State, steps: seq<Step>, me: nat)
    decreases |steps|
  {
    steps == [] || (Respects(st, steps[0], me) && RespectfulRun(caps, Next(caps, st, steps[0]), steps[1..], me))
  }

  lemma {:induction false} RespectfulConcat(caps: Caps, st: State, a: seq<Step>, b: seq<Step>, me: nat)
    ensures RespectfulRun(caps, st, a + b, me) <==>
            RespectfulRun(caps, st, a, me) && RespectfulRun(caps, Run(caps, st, a), b, me)
    decreases |a|
  {
    if a == [] {
      assert a + b == b;
    } else {
      assert (a + b)[0] == a[0] && (a + b)[1..] == a[1..] + b;
      RespectfulConcat(caps, Next(caps, st, a[0]), a[1..], b, me);
    }
  }

  // Row `id` is live and unbound to any lobby or member at a key of scope s.
  ghost predicate Held(st: State, s: Scope, id: nat, b: Option<string>) {
    exists k :: k in st.rows && k.scope == s && st.rows[k] == Row(id, b, None, None, false)
  }

  // Row `id` was inserted by `me`.
  predicate Wrote(st: State, me: nat, id: nat) {
    exists i :: 0 <= i < |st.log| && st.log[i].id == id && st.log[i].claimer == me
  }

  // A release by binding key leaves the rows of scope s bound to b alone.
  predicate Spares(step: Step, s: Scope, b: Option<string>) {
    step.ReleaseBinding? ==> b != Some(step.key) || (step.only.Some? && step.only.value != s)
  }

  predicate AllSpare(steps: seq<Step>, s: Scope, b: Option<string>) {
    forall i :: 0 <= i < |steps| ==> Spares(steps[i], s, b)
  }

  lemma StepKeepsIds(caps: Caps, st: State, step: Step)
    requires IdsOk(st)
    ensures IdsOk(Next(caps, st, step))
  {
    var after := Next(caps, st, step);
    if step.Insert? {
      InsertKeepsIds(st, step.claimer);
    } else if !step.Read? {
      SubrowsKeepIds(st, after);
    }
  }

  lemma InsertKeepsIds(st: State, c: nat)
    requires IdsOk(st)
    ensures IdsOk(InsertStep(st, c))
  {
  }

  // Updates and deletes keep the id at every remaining key.
  lemma SubrowsKeepIds(st: State, after: State)
    requires IdsOk(st) && after.log == st.log && after.nextId == st.nextId
    requires forall k :: k in after.rows ==> k in st.rows && after.rows[k].id == st.rows[k].id
    ensures IdsOk(after)
  {
  }

  lemma {:induction false} RunKeepsIds(caps: Caps, st: State, steps: seq<Step>)
    requires IdsOk(st)
    ensures IdsOk(Run(caps, st, steps))
    decreases |steps|
  {
    if steps != [] {
      StepKeepsIds(caps, st, steps[0]);
      RunKeepsIds(caps, Next(caps, st, steps[0]), steps[1..]);
    }
  }

  lemma StepKeepsHeld(caps: Caps, st: State, step: Step, me: nat, s: Scope, id: nat, b: Option<string>)
    requires Held(st, s, id, b) && Respects(st, step, me) && Spares(step, s, b) && Wrote(st, me, id)
    ensures Held(Next(caps, st, step), s, id, b) && Wrote(Next(caps, st, step), me, id)
  {
    var k :| k in st.rows && k.scope == s && st.rows[k] == Row(id, b, None, None, false);
    var after := Next(caps, st, step);
    var i :| 0 <= i < |st.log| && st.log[i].id == id && st.log[i].claimer == me;
    assert st.log <= after.log && after.log[i] == st.log[i] && st.log[i] in st.log;
    assert k in after.rows && after.rows[k] == st.rows[k];
  }

  // A row that I inserted and have not bound yet survives everything the others may do.
  lemma {:induction false} RunKeepsHeld(caps: Caps, st: State, steps: seq<Step>, me: nat, s: Scope, id: nat,
                                        b: Option<string>)
    requires Held(st, s, id, b) && Wrote(st, me, id)
    requires RespectfulRun(caps, st, steps, me) && AllSpare(steps, s, b)
    ensures Held(Run(caps, st, steps), s, id, b) && Wrote(Run(caps, st, steps), me, id)
    decreases |steps|
  {
    if steps != [] {
      StepKeepsHeld(caps, st, steps[0], me, s, id, b);
      RunKeepsHeld(caps, Next(caps, st, steps[0]), steps[1..], me, s, id, b);
    }
  }

  lemma {:induction false} OthersAddNoneOfMine(caps: Caps, st: State, steps: seq<Step>, me: nat, n: nat)
    requires OthersOnly(steps, me) && n <= |st.log|
    ensures |Run(caps, st, steps).log| >= |st.log|
    ensures Mine(Run(caps, st, steps), me, n) == Mine(st, me, n)
    decreases |steps|
  {
    if steps != [] {
      var next := Next(caps, st, steps[0]);
      assert !StepBy(steps[0], me);
      MineStep(caps, st, steps[0], me, n);
      OthersAddNoneOfMine(caps, next, steps[1..], me, n);
    }
  }

  lemma MineStep(caps: Caps, st: State, step: Step, me: nat, n: nat)
    requires n <= |st.log|
    ensures var next := Next(caps, st, step);
            && |next.log| >= |st.log|
            && Mine(next, me, n) == Mine(st, me, n)
                                    + (if |next.log| > |st.log| && step == Insert(me) then {st.nextId} else {})
  {
    var next := Next(caps, st, step);
    if |next.log| > |st.log| {
      var last := |st.log|;
      assert next.log == st.log + [next.log[last]];
      forall id | id in Mine(st, me, n) ensures id in Mine(next, me, n) {
        var i :| n <= i < |st.log| && st.log[i].claimer == me && st.log[i].id == id;
        assert next.log[i] == st.log[i];
      }
      if step == Insert(me) {
        assert next.log[last].claimer == me && next.log[last].id == st.nextId;
      }
    }
  }

  // A claim adds exactly the row it returns to what I wrote.
  lemma {:induction false} ClaimAddsOne(caps: Caps, st: State, me: nat, s: Scope, used: nat, b: Option<string>,
                                        env: Env, r: nat, n: nat)
    requires OthersEnv(env, me) && n <= |st.log|
    ensures var (after, o) := ClaimRounds(caps, st, me, s, used, b, env, r);
            && |after.log| >= |st.log|
            && Mine(after, me, n) == Mine(st, me, n) + (if o.Claimed? then {o.id} else {})
    decreases caps(s) + 1 - r
  {
    hide Run, Next, Live, Mine, NextFree, Physical, OthersOnly;
    if r <= caps(s) {
      var st1 := Run(caps, st, env(2 * r));
      OthersAddNoneOfMine(caps, st, env(2 * r), me, n);
      var st2 := ReadStep(caps, st1, me, s, used, b);
      SameLogSameMine(st1, st2, me, n);
      if !Full(caps, st1.rows, s, used) {
        var st3 := Run(caps, st2, env(2 * r + 1));
        OthersAddNoneOfMine(caps, st2, env(2 * r + 1), me, n);
        OthersKeepMyPending(caps, st2, env(2 * r + 1), me);
        MineInsert(caps, st3, me, n);
        if st3.pending[me].key in st3.rows {
          ClaimAddsOne(caps, InsertStep(st3, me), me, s, used, b, env, r + 1, n);
        }
      }
    }
  }

  lemma SameLogSameMine(a: State, b: State, me: nat, n: nat)
    requires a.log == b.log
    ensures Mine(a, me, n) == Mine(b, me, n)
  {
  }

  lemma MineInsert(caps: Caps, st: State, me: nat, n: nat)
    requires n <= |st.log| && me in st.pending
    ensures Mine(InsertStep(st, me), me, n) ==
            Mine(st, me, n) + (if st.pending[me].key in st.rows then {} else {st.nextId})
    ensures |InsertStep(st, me).log| >= |st.log|
  {
    MineStep(caps, st, Insert(me), me, n);
  }

  // Deleting ids one by one removes exactly the rows that carry them.
  function Rollback(st: State, ids: seq<nat>): State
    decreases |ids|
  {
    if ids == [] then st else Rollback(st.(rows := Remove(st.rows, ids[0])), ids[1..])
  }

  lemma {:induction false} RollbackRemoves(st: State, ids: seq<nat>)
    ensures Rollback(st, ids) == st.(rows := map k | k in st.rows && st.rows[k].id !in ids :: st.rows[k])
    decreases |ids|
  {
    if ids == [] {
      assert (map k | k in st.rows && st.rows[k].id !in ids :: st.rows[k]) == st.rows;
    } else {
      var mid := st.(rows := Remove(st.rows, ids[0]));
      RollbackRemoves(mid, ids[1..]);
      assert forall k :: k in mid.rows && mid.rows[k].id !in ids[1..] <==> k in st.rows && st.rows[k].id !in ids;
    }
  }
}
