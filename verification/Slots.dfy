// Finite-slot reservation tables and the step system that concurrent claimers,
// releasers and deleters run against them.
//
// The three reservation tables of the repository (budget_reservation_slots,
// human_inference_reservations, human_cost_admissions) have the same shape: rows are
// unique on (scope, slot_index), a row is live until `released_at` is set, and a
// released row keeps its index.  They are modelled as one map; the constructors of
// `Scope` keep the three tables apart.
module Slots {
  import opened Options
  import opened Utils

  datatype Scope =
    | BudgetScope(key: string)
    | InferenceScope(key: string, day: int)
    | AdmissionScope(principal: string, day: int, bucket: string)

  datatype Key = Key(scope: Scope, index: nat)

  datatype Row = Row(id: nat, binding: Option<string>, lobby: Option<nat>, member: Option<nat>, released: bool)

  type Rows = map<Key, Row>

  // ------------------------------------------------------------------ tables

  // Live indices and all physical indices of one scope: what a claimer reads.
  function Live(rows: Rows, s: Scope): set<nat> {
    set k | k in rows && k.scope == s && !rows[k].released :: k.index
  }

  function Physical(rows: Rows, s: Scope): set<nat> {
    set k | k in rows && k.scope == s :: k.index
  }

  predicate Released(rows: Rows, s: Scope, i: nat) {
    Key(s, i) in rows && rows[Key(s, i)].released
  }

  predicate Taken(implicitUsed: nat, physical: set<nat>, i: nat) {
    i < implicitUsed || i in physical
  }

  // Lowest index that is neither implicitly nor physically taken.
  function NextFree(implicitUsed: nat, physical: set<nat>): (r: nat)
    ensures !Taken(implicitUsed, physical, r)
    ensures forall j: nat :: j < r ==> Taken(implicitUsed, physical, j)
  {
    NextFreeFrom(implicitUsed, physical, implicitUsed)
  }

  function AtOrAbove(physical: set<nat>, from: nat): set<nat> {
    set i | i in physical && from <= i
  }

  function NextFreeFrom(implicitUsed: nat, physical: set<nat>, from: nat): (r: nat)
    requires implicitUsed <= from
    requires forall j: nat :: j < from ==> Taken(implicitUsed, physical, j)
    ensures !Taken(implicitUsed, physical, r)
    ensures forall j: nat :: j < r ==> Taken(implicitUsed, physical, j)
    decreases AtOrAbove(physical, from)
  {
    if from !in physical then from
    else
      assert from in AtOrAbove(physical, from) - AtOrAbove(physical, from + 1);
      NextFreeFrom(implicitUsed, physical, from + 1)
  }

  // ------------------------------------------------------------------ steps

  // A claimer between its read and its insert: the row it is about to add.
  datatype Pending = Pending(key: Key, binding: Option<string>)

  // One committed insert: `claimer` placed row `id` at `key`.
  datatype Entry = Entry(key: Key, id: nat, claimer: nat)

  datatype State = State(rows: Rows, pending: map<nat, Pending>, nextId: nat, log: seq<Entry>)

  datatype Step =
    | Read(claimer: nat, scope: Scope, implicitUsed: nat, bindingKey: Option<string>)
    | Insert(claimer: nat)
    | ReleaseId(id: nat)
    | ReleaseBinding(key: string, only: Option<Scope>)
    | ReleaseLobby(lobby: nat)
    | ReleaseMember(member: nat)
    | ReleaseInferenceOfLobby(lobby: nat)
    | Bind(id: nat, newLobby: Option<nat>, newMember: Option<nat>)
    | Delete(id: nat)

  type Caps = Scope -> nat

  // Does this UPDATE release the row?  Every release is conditional on released_at IS NULL.
  predicate Releases(step: Step, k: Key, row: Row) {
    match step
    case ReleaseId(id) => row.id == id
    case ReleaseBinding(key, only) => row.binding == Some(key) && (only.None? || only.value == k.scope)
    case ReleaseLobby(lobby) => row.lobby == Some(lobby) && !k.scope.BudgetScope?
    case ReleaseMember(member) => row.member == Some(member) && !k.scope.BudgetScope?
    case ReleaseInferenceOfLobby(lobby) => row.lobby == Some(lobby) && k.scope.InferenceScope?
    case _ => false
  }

  function Touch(step: Step, k: Key, row: Row): Row {
    if step.Bind? && row.id == step.id then row.(lobby := step.newLobby, member := step.newMember)
    else if Releases(step, k, row) then row.(released := true)
    else row
  }

  function Update(step: Step, rows: Rows): Rows {
    map k | k in rows :: Touch(step, k, rows[k])
  }

  function Remove(rows: Rows, id: nat): Rows {
    map k | k in rows && rows[k].id != id :: rows[k]
  }

  predicate Full(caps: Caps, rows: Rows, s: Scope, implicitUsed: nat) {
    implicitUsed + |Live(rows, s)| >= caps(s)
  }

  function ReadStep(caps: Caps, st: State, c: nat, s: Scope, u: nat, b: Option<string>): State {
    if Full(caps, st.rows, s, u) then st.(pending := st.pending - {c})
    else st.(pending := st.pending[c := Pending(Key(s, NextFree(u, Physical(st.rows, s))), b)])
  }

  // The unique constraint decides: the insert succeeds exactly when the key is absent.
  function InsertStep(st: State, c: nat): State {
    if c !in st.pending then st
    else
      var p := st.pending[c];
      if p.key in st.rows then st.(pending := st.pending - {c})
      else State(st.rows[p.key := Row(st.nextId, p.binding, None, None, false)], st.pending - {c},
                 st.nextId + 1, st.log + [Entry(p.key, st.nextId, c)])
  }

  function Next(caps: Caps, st: State, step: Step): State {
    match step
    case Read(c, s, u, b) => ReadStep(caps, st, c, s, u, b)
    case Insert(c) => InsertStep(st, c)
    case Delete(id) => st.(rows := Remove(st.rows, id))
    case _ => st.(rows := Update(step, st.rows))
  }

  function Run(caps: Caps, st: State, steps: seq<Step>): State
    decreases |steps|
  {
    if steps == [] then st else Run(caps, Next(caps, st, steps[0]), steps[1..])
  }

  lemma {:induction false} RunConcat(caps: Caps, st: State, a: seq<Step>, b: seq<Step>)
    ensures Run(caps, st, a + b) == Run(caps, Run(caps, st, a), b)
    decreases |a|
  {
    if a == [] {
      assert a + b == b;
    } else {
      assert (a + b)[0] == a[0] && (a + b)[1..] == a[1..] + b;
      RunConcat(caps, Next(caps, st, a[0]), a[1..], b);
    }
  }

  lemma RunOne(caps: Caps, st: State, a: seq<Step>, step: Step)
    ensures Run(caps, st, a + [step]) == Next(caps, Run(caps, st, a), step)
  {
    RunConcat(caps, st, a, [step]);
    assert Run(caps, Run(caps, st, a), [step]) == Next(caps, Run(caps, st, a), step);
  }

  // A hard delete is sound only on a row that has not been released.
  ghost predicate DeletesLiveOnly(st: State, step: Step) {
    step.Delete? ==> forall k :: k in st.rows && st.rows[k].id == step.id ==> !st.rows[k].released
  }

  ghost predicate LegalRun(caps: Caps, st: State, steps: seq<Step>)
    decreases |steps|
  {
    steps == [] || (DeletesLiveOnly(st, steps[0]) && LegalRun(caps, Next(caps, st, steps[0]), steps[1..]))
  }

  lemma {:induction false} LegalConcat(caps: Caps, st: State, a: seq<Step>, b: seq<Step>)
    ensures LegalRun(caps, st, a + b) <==> LegalRun(caps, st, a) && LegalRun(caps, Run(caps, st, a), b)
    decreases |a|
  {
    if a == [] {
      assert a + b == b;
    } else {
      assert (a + b)[0] == a[0] && (a + b)[1..] == a[1..] + b;
      LegalConcat(caps, Next(caps, st, a[0]), a[1..], b);
    }
  }

  // Every claimer that reads scope s carries at least floor(s) implicitly used slots.
  predicate ReadsAtLeast(steps: seq<Step>, low: Caps) {
    forall i :: 0 <= i < |steps| && steps[i].Read? ==> low(steps[i].scope) <= steps[i].implicitUsed
  }

  // ------------------------------------------------------------------ rank

  // Number of indices below i that are not released.  Releases lower it, deletes of live
  // rows and inserts leave it alone.
  function Rank(rows: Rows, s: Scope, i: nat): nat {
    if i == 0 then 0 else Rank(rows, s, i - 1) + (if Released(rows, s, i - 1) then 0 else 1)
  }

  function LiveBelow(rows: Rows, s: Scope, i: nat): set<nat> {
    set j | j in Live(rows, s) && j < i
  }

  ghost predicate ReleasedGrows(before: Rows, after: Rows) {
    forall s, i :: Released(before, s, i) ==> Released(after, s, i)
  }

  lemma {:induction false} RankFalls(a: Rows, b: Rows, s: Scope, i: nat)
    requires ReleasedGrows(a, b)
    ensures Rank(b, s, i) <= Rank(a, s, i)
    decreases i
  {
    if i > 0 { RankFalls(a, b, s, i - 1); }
  }

  lemma LiveBelowStep(rows: Rows, s: Scope, i: nat)
    ensures LiveBelow(rows, s, i + 1) ==
            LiveBelow(rows, s, i) + (if i in Live(rows, s) then {i} else {})
    ensures |LiveBelow(rows, s, i + 1)| == |LiveBelow(rows, s, i)| + (if i in Live(rows, s) then 1 else 0)
  {
    assert LiveBelow(rows, s, i + 1) ==
           LiveBelow(rows, s, i) + (if i in Live(rows, s) then {i} else {});
  }

  // Everything below a free index is implicit, live or released.
  lemma {:induction false} RankOfFree(rows: Rows, s: Scope, u: nat, i: nat)
    requires forall j: nat :: j < i ==> Taken(u, Physical(rows, s), j)
    ensures Rank(rows, s, i) <= (if i < u then i else u) + |LiveBelow(rows, s, i)|
    decreases i
  {
    if i > 0 {
      RankOfFree(rows, s, u, i - 1);
      LiveBelowStep(rows, s, i - 1);
      if i - 1 >= u {
        assert Taken(u, Physical(rows, s), i - 1);
        var k :| k in rows && k.scope == s && k.index == i - 1;
        assert k == Key(s, i - 1);
        assert rows[k].released || i - 1 in Live(rows, s);
      }
    }
  }

  lemma LiveIsPhysical(rows: Rows, s: Scope)
    ensures Live(rows, s) <= Physical(rows, s)
  {
  }

  // The indices below `low` hold no row, so they count in full.
  lemma {:induction false} LiveUnderRank(rows: Rows, s: Scope, low: nat, i: nat)
    requires forall j :: j in Physical(rows, s) ==> low <= j
    ensures |LiveBelow(rows, s, i)| + (if i < low then i else low) <= Rank(rows, s, i)
    decreases i
  {
    if i == 0 {
      assert LiveBelow(rows, s, 0) == {};
    } else {
      LiveUnderRank(rows, s, low, i - 1);
      LiveBelowStep(rows, s, i - 1);
      if Released(rows, s, i - 1) {
        assert i - 1 in Physical(rows, s) by { assert Key(s, i - 1) in rows; }
        assert i - 1 !in Live(rows, s);
      } else if i - 1 < low {
        LiveIsPhysical(rows, s);
      }
    }
  }

  ghost function MaxOf(xs: set<nat>): (m: nat)
    requires xs != {}
    ensures m in xs && forall x :: x in xs ==> x <= m
  {
    MaxExists(xs);
    var m :| m in xs && forall x :: x in xs ==> x <= m;
    m
  }

  lemma {:induction false} MaxExists(xs: set<nat>)
    requires xs != {}
    ensures exists m :: m in xs && forall x :: x in xs ==> x <= m
    decreases |xs|
  {
    var x :| x in xs;
    if xs == {x} {
      assert x in xs;
    } else {
      var rest := xs - {x};
      assert xs == rest + {x};
      MaxExists(rest);
      var m :| m in rest && forall y :: y in rest ==> y <= m;
      var top := if x <= m then m else x;
      assert top in xs && forall y :: y in xs ==> y <= top;
    }
  }

  // ------------------------------------------------------------------ invariant

  ghost predicate Inv(caps: Caps, low: Caps, st: State) {
    && (forall k :: k in st.rows && !st.rows[k].released ==> Rank(st.rows, k.scope, k.index) < caps(k.scope))
    && (forall k :: k in st.rows ==> low(k.scope) <= k.index)
    && (forall c :: c in st.pending ==>
          && Rank(st.rows, st.pending[c].key.scope, st.pending[c].key.index) < caps(st.pending[c].key.scope)
          && low(st.pending[c].key.scope) <= st.pending[c].key.index)
  }

  const EMPTY: State := State(map[], map[], 0, [])

  lemma ReadKeepsInv(caps: Caps, low: Caps, st: State, c: nat, s: Scope, u: nat, b: Option<string>)
    requires Inv(caps, low, st) && low(s) <= u
    ensures Inv(caps, low, ReadStep(caps, st, c, s, u, b))
  {
    if !Full(caps, st.rows, s, u) {
      var i := NextFree(u, Physical(st.rows, s));
      RankOfFree(st.rows, s, u, i);
      assert LiveBelow(st.rows, s, i) <= Live(st.rows, s);
      SubsetSize(LiveBelow(st.rows, s, i), Live(st.rows, s));
    }
  }

  lemma StepReleasedGrows(caps: Caps, st: State, step: Step)
    requires DeletesLiveOnly(st, step)
    ensures ReleasedGrows(st.rows, Next(caps, st, step).rows)
  {
  }

  lemma StepKeepsInv(caps: Caps, low: Caps, st: State, step: Step)
    requires Inv(caps, low, st) && DeletesLiveOnly(st, step)
    requires step.Read? ==> low(step.scope) <= step.implicitUsed
    ensures Inv(caps, low, Next(caps, st, step))
  {
    if step.Read? {
      ReadKeepsInv(caps, low, st, step.claimer, step.scope, step.implicitUsed, step.bindingKey);
    } else {
      var st' := Next(caps, st, step);
      StepReleasedGrows(caps, st, step);
      forall k | k in st'.rows && !st'.rows[k].released
        ensures Rank(st'.rows, k.scope, k.index) < caps(k.scope)
      {
        RankFalls(st.rows, st'.rows, k.scope, k.index);
      }
      forall c | c in st'.pending
        ensures Rank(st'.rows, st'.pending[c].key.scope, st'.pending[c].key.index) < caps(st'.pending[c].key.scope)
      {
        RankFalls(st.rows, st'.rows, st'.pending[c].key.scope, st'.pending[c].key.index);
      }
    }
  }

  lemma {:induction false} RunKeepsInv(caps: Caps, low: Caps, st: State, steps: seq<Step>)
    requires Inv(caps, low, st) && LegalRun(caps, st, steps) && ReadsAtLeast(steps, low)
    ensures Inv(caps, low, Run(caps, st, steps))
    decreases |steps|
  {
    if steps != [] {
      StepKeepsInv(caps, low, st, steps[0]);
      RunKeepsInv(caps, low, Next(caps, st, steps[0]), steps[1..]);
    }
  }

  lemma InvBoundsLive(caps: Caps, low: Caps, st: State, s: Scope)
    requires Inv(caps, low, st)
    ensures |Live(st.rows, s)| <= caps(s)
    ensures Live(st.rows, s) != {} ==> low(s) + |Live(st.rows, s)| <= caps(s)
  {
    if Live(st.rows, s) != {} {
      var m := MaxOf(Live(st.rows, s));
      assert Key(s, m) in st.rows;
      forall j | j in Physical(st.rows, s) ensures low(s) <= j { assert Key(s, j) in st.rows; }
      LiveUnderRank(st.rows, s, low(s), m);
      LiveBelowStep(st.rows, s, m);
      assert LiveBelow(st.rows, s, m + 1) == Live(st.rows, s);
    }
  }

  // ------------------------------------------------------------------ main theorems

  // In every interleaving of any number of claimers, with any spend values and stale reads,
  // the live rows of a scope never exceed its cap; and whatever lower bound the claimers'
  // charged spend obeys is respected on top of them.
  lemma CapHoldsInEveryRun(caps: Caps, low: Caps, steps: seq<Step>, s: Scope)
    requires LegalRun(caps, EMPTY, steps) && ReadsAtLeast(steps, low)
    ensures |Live(Run(caps, EMPTY, steps).rows, s)| <= caps(s)
    ensures Live(Run(caps, EMPTY, steps).rows, s) != {} ==>
              low(s) + |Live(Run(caps, EMPTY, steps).rows, s)| <= caps(s)
  {
    assert Inv(caps, low, EMPTY);
    RunKeepsInv(caps, low, EMPTY, steps);
    InvBoundsLive(caps, low, Run(caps, EMPTY, steps), s);
  }
}
