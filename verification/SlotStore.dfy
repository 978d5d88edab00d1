// The reservation table as the sessions mutate it: budget_reservations.py, with the retry
// loop, the lowest-free-index search and the conditional releases as loops over the rows.
module SlotStore {
  import opened Options
  import opened Utils
  import opened Slots
  import opened SlotBudget
  import opened SlotClaims

  class Store {
    var rows: Rows
    var inFlight: map<nat, Pending>
    var nextId: nat
    var log: seq<Entry>

    constructor ()
      ensures Abs() == EMPTY
    {
      rows, inFlight, nextId, log := map[], map[], 0, [];
    }

    function Abs(): State
      reads this
    {
      State(rows, inFlight, nextId, log)
    }

    // Other sessions commit these steps while ours is suspended.
    method OtherSessions(caps: Caps, steps: seq<Step>)
      modifies this
      ensures Abs() == Run(caps, old(Abs()), steps)
    {
      var i := 0;
      assert steps[..0] == [];
      while i < |steps|
        invariant 0 <= i <= |steps|
        invariant Abs() == Run(caps, old(Abs()), steps[..i])
      {
        RunOne(caps, old(Abs()), steps[..i], steps[i]);
        assert steps[..i + 1] == steps[..i] + [steps[i]];
        var next := Next(caps, Abs(), steps[i]);
        rows, inFlight, nextId, log := next.rows, next.pending, next.nextId, next.log;
        i := i + 1;
      }
      assert steps[..i] == steps;
    }

    method SlotIndices(s: Scope) returns (live: set<nat>, everything: set<nat>)
      ensures live == Live(rows, s) && everything == Physical(rows, s)
    {
      live, everything := {}, {};
      var todo := rows.Keys;
      while todo != {}
        invariant todo <= rows.Keys
        invariant everything == set k | k in rows && k !in todo && k.scope == s :: k.index
        invariant live == set k | k in rows && k !in todo && k.scope == s && !rows[k].released :: k.index
        decreases todo
      {
        var k :| k in todo;
        todo := todo - {k};
        if k.scope == s {
          everything := everything + {k.index};
          if !rows[k].released {
            live := live + {k.index};
          }
        }
      }
    }

    static method NextFreeIndex(implicitUsed: nat, physical: set<nat>) returns (index: nat)
      ensures index == NextFree(implicitUsed, physical)
    {
      index := 0;
      var free := NextFree(implicitUsed, physical);
      while index < implicitUsed || index in physical
        invariant forall j: nat :: j < index ==> Taken(implicitUsed, physical, j)
        invariant index <= free
        decreases free - index
      {
        index := index + 1;
      }
      assert index < free ==> Taken(implicitUsed, physical, index);
    }

    // The shared loop of the three claim functions.  `me` is our session, `env` what the other
    // sessions commit between our statements.
    method ClaimLoop(caps: Caps, me: nat, s: Scope, used: nat, b: Option<string>, env: Env) returns (slot: Option<nat>)
      requires OthersEnv(env, me)
      modifies this
      ensures var (after, o) := ClaimRounds(caps, old(Abs()), me, s, used, b, env, 0);
              && Abs() == after
              && slot == (if o.Claimed? then Some(o.id) else None)
    {
      hide Run, Next, Live, Physical, NextFree, OthersOnly, OthersEnv, ClaimRounds;
      var r := 0;
      while r < caps(s) + 1
        invariant 0 <= r <= caps(s) + 1
        invariant ClaimRounds(caps, Abs(), me, s, used, b, env, r)
                  == ClaimRounds(caps, old(Abs()), me, s, used, b, env, 0)
      {
        ghost var st := Abs();
        RoundOutcome(caps, st, me, s, used, b, env, r);
        OtherSessions(caps, env(2 * r));
        var live, everything := SlotIndices(s);
        if used + |live| >= caps(s) {
          inFlight := inFlight - {me};
          return None;
        }
        var index := NextFreeIndex(used, everything);
        var row := Pending(Key(s, index), b);
        inFlight := inFlight[me := row];
        OtherSessions(caps, env(2 * r + 1));
        inFlight := inFlight - {me};
        if row.key !in rows {
          rows := rows[row.key := Row(nextId, b, None, None, false)];
          log := log + [Entry(row.key, nextId, me)];
          nextId := nextId + 1;
          return Some(nextId - 1);
        }
        r := r + 1;
      }
      ClaimOver(caps, Abs(), me, s, used, b, env);
      return None;
    }

    // claim_budget_slot: the live rows already bound to `binding` in this scope are released first.
    method ClaimBudgetSlot(caps: Caps, me: nat, s: Scope, spent: real, budget: real, reserve: real,
                           binding: Option<string>, env: Env) returns (slot: Option<nat>)
      requires OthersEnv(env, me)
      requires caps(s) == BudgetSlotCount(budget, reserve)
      modifies this
      ensures var (after, o) := BudgetClaim(caps, old(Abs()), me, s, ImplicitBudgetUsed(spent, reserve), binding, env);
              Abs() == after && slot == (if o.Claimed? then Some(o.id) else None)
    {
      var cap := BudgetSlotCount(budget, reserve);
      if cap <= 0 {
        return None;
      }
      if binding.Some? {
        var _ := ReleaseBudgetSlotsByBindingKey(binding.value, Some(s));
      }
      slot := ClaimLoop(caps, me, s, MinNat(ImplicitBudgetUsed(spent, reserve), cap), binding, env);
    }

    // Conditional UPDATE by id: true exactly when a live row was there.
    method ReleaseBudgetSlot(id: nat) returns (updated: bool)
      modifies this
      ensures rows == Update(ReleaseId(id), old(rows))
      ensures updated <==> exists k :: k in old(rows) && old(rows)[k].id == id && !old(rows)[k].released
      ensures inFlight == old(inFlight) && nextId == old(nextId) && log == old(log)
    {
      var count := ReleaseWhere(ReleaseId(id));
      updated := count > 0;
      ghost var hit := set k | k in old(rows) && Releases(ReleaseId(id), k, old(rows)[k]) && !old(rows)[k].released;
      if exists k :: k in old(rows) && old(rows)[k].id == id && !old(rows)[k].released {
        ghost var k :| k in old(rows) && old(rows)[k].id == id && !old(rows)[k].released;
        assert k in hit;
      } else {
        assert hit == {};
      }
    }

    method ReleaseBudgetSlotsByBindingKey(key: string, only: Option<Scope>) returns (count: nat)
      modifies this
      ensures rows == Update(ReleaseBinding(key, only), old(rows))
      ensures count == |set k | k in old(rows) && !old(rows)[k].released && old(rows)[k].binding == Some(key)
                                 && (only.None? || only.value == k.scope)|
      ensures inFlight == old(inFlight) && nextId == old(nextId) && log == old(log)
    {
      count := ReleaseWhere(ReleaseBinding(key, only));
      assert (set k | k in old(rows) && Releases(ReleaseBinding(key, only), k, old(rows)[k]) && !old(rows)[k].released)
          == (set k | k in old(rows) && !old(rows)[k].released && old(rows)[k].binding == Some(key)
                      && (only.None? || only.value == k.scope));
    }

    // UPDATE ... SET released_at WHERE <matches> AND released_at IS NULL, and its rowcount.
    method ReleaseWhere(step: Step) returns (count: nat)
      requires !step.Bind?
      modifies this
      ensures rows == Update(step, old(rows))
      ensures count == |Hits(step, old(rows))|
      ensures inFlight == old(inFlight) && nextId == old(nextId) && log == old(log)
    {
      hide *;
      var todo := rows.Keys;
      var touched: set<Key> := {};
      NothingVisited(step, rows);
      while todo != {}
        invariant todo <= old(rows).Keys
        invariant rows == Visited(step, old(rows), todo)
        invariant touched == Hits(step, old(rows)) - todo
        invariant inFlight == old(inFlight) && nextId == old(nextId) && log == old(log)
        decreases todo
      {
        var k :| k in todo;
        VisitOne(step, old(rows), todo, k);
        todo := todo - {k};
        if Releases(step, k, rows[k]) && !rows[k].released {
          rows := rows[k := rows[k].(released := true)];
          touched := touched + {k};
        }
      }
      count := |touched|;
      AllVisited(step, old(rows));
    }
  }

  // The live rows a release takes.
  function Hits(step: Step, rows: Rows): set<Key> {
    set k | k in rows && Releases(step, k, rows[k]) && !rows[k].released
  }

  // The rows once all but those in todo have been updated.
  function Visited(step: Step, rows: Rows, todo: set<Key>): Rows {
    map k | k in rows :: if k in todo then rows[k] else Touch(step, k, rows[k])
  }

  lemma NothingVisited(step: Step, rows: Rows)
    ensures Visited(step, rows, rows.Keys) == rows && Hits(step, rows) - rows.Keys == {}
  {
  }

  lemma VisitOne(step: Step, rows: Rows, todo: set<Key>, k: Key)
    requires !step.Bind? && k in todo && todo <= rows.Keys
    ensures var (before, hit) := (Visited(step, rows, todo), Releases(step, k, rows[k]) && !rows[k].released);
            && k in before && before[k] == rows[k]
            && Visited(step, rows, todo - {k}) == (if hit then before[k := rows[k].(released := true)] else before)
            && Hits(step, rows) - (todo - {k}) == Hits(step, rows) - todo + (if hit then {k} else {})
  {
    hide Releases;
  }

  lemma AllVisited(step: Step, rows: Rows)
    ensures Visited(step, rows, {}) == Update(step, rows)
    ensures Hits(step, rows) - {} == Hits(step, rows)
  {
  }

  // One round of the loop, spelled out on the rows.
  lemma RoundOutcome(caps: Caps, st: State, me: nat, s: Scope, used: nat, b: Option<string>, env: Env, r: nat)
    requires OthersEnv(env, me) && r <= caps(s)
    ensures var st1 := Run(caps, st, env(2 * r));
            var row := Pending(Key(s, NextFree(used, Physical(st1.rows, s))), b);
            var st3 := Run(caps, st1.(pending := st1.pending[me := row]), env(2 * r + 1));
            ClaimRounds(caps, st, me, s, used, b, env, r) ==
              if used + |Live(st1.rows, s)| >= caps(s) then (st1.(pending := st1.pending - {me}), Exhausted)
              else if row.key !in st3.rows then
                (State(st3.rows[row.key := Row(st3.nextId, b, None, None, false)], st3.pending - {me},
                       st3.nextId + 1, st3.log + [Entry(row.key, st3.nextId, me)]), Claimed(st3.nextId))
              else ClaimRounds(caps, st3.(pending := st3.pending - {me}), me, s, used, b, env, r + 1)
  {
    hide Run, Next, Live, Physical, NextFree;
    OthersKeepMyPending(caps, ReadStep(caps, Run(caps, st, env(2 * r)), me, s, used, b), env(2 * r + 1), me);
  }

  // claim_budget_slot on the abstract state.
  function BudgetClaim(caps: Caps, st: State, me: nat, s: Scope, charged: nat, binding: Option<string>,
                       env: Env): (State, Outcome)
    requires OthersEnv(env, me)
  {
    if caps(s) == 0 then (st, Exhausted)
    else ClaimRounds(caps, Reclaim(caps, st, s, binding), me, s, MinNat(charged, caps(s)), binding, env, 0)
  }

  function Reclaim(caps: Caps, st: State, s: Scope, binding: Option<string>): State {
    if binding.Some? then Next(caps, st, ReleaseBinding(binding.value, Some(s))) else st
  }

  // Releases are idempotent, so racing releasers cannot undo or double-count each other.
  lemma ReleaseTwice(step: Step, rows: Rows)
    requires !step.Bind?
    ensures Update(step, Update(step, rows)) == Update(step, rows)
    ensures forall k :: k in Update(step, rows) && Releases(step, k, rows[k]) ==> Update(step, rows)[k].released
  {
  }
}
