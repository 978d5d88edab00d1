// admit_human: one admission claims a slot in three scopes (global $, per-user $, per-user
// count) and hard-deletes what it claimed when a later scope is full.
module HumanAdmission {
  import opened Options
  import opened Utils
  import opened Slots
  import opened SlotBudget
  import opened SlotClaims
  import opened SlotStore
  import opened SlotOwnership
  import opened BudgetClaims

  datatype Action = Create | Join | Launch

  datatype Reason = Admitted | BreakerOpen | DailyInferenceCap | DailyJoinCap | DailyGameCap

  datatype Decision = Decision(allowed: bool, reason: Reason, countSlot: Option<nat>, reservations: seq<nat>)

  // What one call reads from outside the tables: who asks, and the charges it sums up.
  datatype Request = Request(principal: string, action: Action, day: int,
                             globalCharged: nat, userCharged: nat, legacyCount: nat)

  // What other sessions commit during the three claims.
  datatype Envs = Envs(global: Env, user: Env, count: Env)

  function GlobalScope(q: Request): Scope { InferenceScope("GLOBAL", q.day) }
  function UserScope(q: Request): Scope { InferenceScope(q.principal, q.day) }
  function CountScope(q: Request): Scope {
    AdmissionScope(q.principal, q.day, if q.action == Join then "join" else "game")
  }

  function Deny(reason: Reason): Decision { Decision(false, reason, None, []) }

  ghost predicate OthersEnvs(e: Envs, me: nat) {
    OthersEnv(e.global, me) && OthersEnv(e.user, me) && OthersEnv(e.count, me)
  }

  function CountCapReason(q: Request): Reason {
    if q.action == Join then DailyJoinCap else DailyGameCap
  }

  function Claim(caps: Caps, st: State, me: nat, s: Scope, charged: nat, env: Env): (State, Outcome)
    requires OthersEnv(env, me)
  {
    BudgetClaim(caps, st, me, s, charged, None, env)
  }

  function Admit(caps: Caps, st: State, me: nat, q: Request, e: Envs): (State, Decision)
    requires OthersEnvs(e, me)
  {
    var (st1, o1) := Claim(caps, st, me, GlobalScope(q), q.globalCharged, e.global);
    if !o1.Claimed? then (st1, Deny(BreakerOpen))
    else
      var (st2, o2) := Claim(caps, st1, me, UserScope(q), q.userCharged, e.user);
      if !o2.Claimed? then (Rollback(st2, [o1.id]), Deny(DailyInferenceCap))
      else
        var (st3, o3) := Claim(caps, st2, me, CountScope(q), q.legacyCount, e.count);
        if !o3.Claimed? then (Rollback(st3, [o1.id, o2.id]), Deny(CountCapReason(q)))
        else (st3, Decision(true, Admitted, Some(o3.id), [o1.id, o2.id]))
  }

  // rollback_admission_decision
  function RollbackDecision(st: State, d: Decision): State {
    Rollback(st, DecisionIds(d))
  }

  function DecisionIds(d: Decision): seq<nat> {
    (if d.countSlot.Some? then [d.countSlot.value] else []) + d.reservations
  }

  // ------------------------------------------------ imperative form

  // Delete by id, as a loop over the rows of the tables.
  method DeleteById(store: Store, id: nat)
    modifies store
    ensures store.rows == Remove(old(store.rows), id)
    ensures store.inFlight == old(store.inFlight) && store.nextId == old(store.nextId) && store.log == old(store.log)
  {
    var todo := store.rows.Keys;
    var kept: Rows := map[];
    while todo != {}
      invariant todo <= store.rows.Keys && store.rows == old(store.rows)
      invariant kept == map k | k in store.rows && k !in todo && store.rows[k].id != id :: store.rows[k]
      invariant store.inFlight == old(store.inFlight) && store.nextId == old(store.nextId)
                && store.log == old(store.log)
      decreases todo
    {
      var k :| k in todo;
      todo := todo - {k};
      if store.rows[k].id != id {
        kept := kept[k := store.rows[k]];
      }
    }
    store.rows := kept;
  }

  method DeleteAll(store: Store, ids: seq<nat>)
    modifies store
    ensures store.Abs() == Rollback(old(store.Abs()), ids)
  {
    var i := 0;
    while i < |ids|
      invariant 0 <= i <= |ids|
      invariant Rollback(store.Abs(), ids[i..]) == Rollback(old(store.Abs()), ids)
    {
      DeleteById(store, ids[i]);
      assert ids[i..][0] == ids[i] && ids[i..][1..] == ids[i + 1..];
      i := i + 1;
    }
  }

  method ClaimSlot(store: Store, caps: Caps, me: nat, s: Scope, charged: nat, env: Env) returns (slot: Option<nat>)
    requires OthersEnv(env, me)
    modifies store
    ensures var (after, o) := Claim(caps, old(store.Abs()), me, s, charged, env);
            store.Abs() == after && slot == (if o.Claimed? then Some(o.id) else None)
  {
    if caps(s) == 0 {
      return None;
    }
    slot := store.ClaimLoop(caps, me, s, MinNat(charged, caps(s)), None, env);
  }

  method AdmitHuman(store: Store, caps: Caps, me: nat, q: Request, e: Envs) returns (d: Decision)
    requires OthersEnvs(e, me)
    modifies store
    ensures var (after, decision) := Admit(caps, old(store.Abs()), me, q, e);
            store.Abs() == after && d == decision
  {
    hide Rollback, BudgetClaim, OthersEnv;
    var claimed: seq<nat> := [];
    var globalSlot := ClaimSlot(store, caps, me, GlobalScope(q), q.globalCharged, e.global);
    if globalSlot.None? {
      return Deny(BreakerOpen);
    }
    claimed := claimed + [globalSlot.value];
    var userSlot := ClaimSlot(store, caps, me, UserScope(q), q.userCharged, e.user);
    if userSlot.None? {
      assert claimed == [globalSlot.value];
      DeleteAll(store, claimed);
      return Deny(DailyInferenceCap);
    }
    claimed := claimed + [userSlot.value];
    assert claimed == [globalSlot.value, userSlot.value];
    var slot := ClaimSlot(store, caps, me, CountScope(q), q.legacyCount, e.count);
    if slot.None? {
      DeleteAll(store, claimed);
      return Deny(CountCapReason(q));
    }
    return Decision(true, Admitted, slot, claimed);
  }

  method RollbackAdmissionDecision(store: Store, d: Decision)
    modifies store
    ensures store.Abs() == RollbackDecision(old(store.Abs()), d)
  {
    DeleteAll(store, DecisionIds(d));
  }

  // ------------------------------------------------ all-or-nothing, undisturbed

  function QuietEnvs(): Envs { Envs(Quiet(), Quiet(), Quiet()) }

  // `after` is `before` plus live, unbound rows with ids in [lo, hi).
  ghost predicate Extends(before: Rows, after: Rows, lo: nat, hi: nat) {
    && (forall k :: k in before ==> k in after && after[k] == before[k])
    && (forall k :: k in after && k !in before ==>
          lo <= after[k].id < hi && after[k] == Row(after[k].id, None, None, None, false))
  }

  // One undisturbed claim of the saga, in the form its successors need.
  lemma QuietClaimStep(caps: Caps, st: State, me: nat, s: Scope, charged: nat)
    requires OthersEnv(Quiet(), me)
    ensures var (after, o) := Claim(caps, st, me, s, charged, Quiet());
            if HasRoom(caps, st.rows, s, charged)
            then && o == Claimed(st.nextId) && after.nextId == st.nextId + 1
                 && Extends(st.rows, after.rows, st.nextId, st.nextId + 1)
                 && |Live(after.rows, s)| == |Live(st.rows, s)| + 1
                 && (forall t :: t != s ==> Live(after.rows, t) == Live(st.rows, t))
            else o == Exhausted && after.rows == st.rows
  {
    QuietBudgetClaim(caps, st, me, s, charged, None);
    hide BudgetClaim, Live;
    if HasRoom(caps, st.rows, s, charged) {
      NewSlotIsOneLiveRow(st.rows, st.nextId, s, MinNat(charged, caps(s)), None);
    }
  }

  // Deleting the ids handed out since st gives back the rows of st.
  lemma RollbackUndoes(st: State, later: State, hi: nat, ids: seq<nat>)
    requires IdsOk(st) && Extends(st.rows, later.rows, st.nextId, hi)
    requires forall id :: id in ids <==> st.nextId <= id < hi
    ensures Rollback(later, ids).rows == st.rows
  {
    RollbackRemoves(later, ids);
  }

  // The three scopes of one request are different, so their claims do not see each other.
  lemma ScopesDiffer(q: Request)
    requires q.principal != "GLOBAL"
    ensures GlobalScope(q) != UserScope(q) && GlobalScope(q) != CountScope(q) && UserScope(q) != CountScope(q)
  {
  }

  // The scopes a request claims a slot in.
  predicate Claims(q: Request, s: Scope) {
    match s
    case InferenceScope(key, day) => day == q.day && (key == "GLOBAL" || key == q.principal)
    case AdmissionScope(principal, day, bucket) =>
      principal == q.principal && day == q.day && bucket == (if q.action == Join then "join" else "game")
    case BudgetScope(_) => false
  }

  // Whose slots a request claims: everybody's of its day, its principal's, and its principal's of
  // its kind of action.
  predicate AllHaveRoom(caps: Caps, rows: Rows, q: Request) {
    && HasRoom(caps, rows, InferenceScope("GLOBAL", q.day), q.globalCharged)
    && HasRoom(caps, rows, InferenceScope(q.principal, q.day), q.userCharged)
    && HasRoom(caps, rows, AdmissionScope(q.principal, q.day, if q.action == Join then "join" else "game"),
               q.legacyCount)
  }

  // A denial by the first scope without room.
  function FirstFull(caps: Caps, rows: Rows, q: Request): Reason {
    if !HasRoom(caps, rows, InferenceScope("GLOBAL", q.day), q.globalCharged) then BreakerOpen
    else if !HasRoom(caps, rows, InferenceScope(q.principal, q.day), q.userCharged) then DailyInferenceCap
    else if q.action == Join then DailyJoinCap
    else DailyGameCap
  }

  // Without interference, a call with a full scope is denied with that scope's reason and leaves
  // both tables exactly as they were.
  lemma DenialLeavesNothing(caps: Caps, st: State, me: nat, q: Request)
    requires IdsOk(st) && q.principal != "GLOBAL" && OthersEnvs(QuietEnvs(), me)
    requires !AllHaveRoom(caps, st.rows, q)
    ensures Admit(caps, st, me, q, QuietEnvs()).1 == Deny(FirstFull(caps, st.rows, q))
    ensures Admit(caps, st, me, q, QuietEnvs()).0.rows == st.rows
  {
    hide Rollback, Live, OthersEnv, Claim, Extends;
    ScopesDiffer(q);
    var n := st.nextId;
    QuietClaimStep(caps, st, me, GlobalScope(q), q.globalCharged);
    var (st1, o1) := Claim(caps, st, me, GlobalScope(q), q.globalCharged, Quiet());
    if o1.Claimed? {
      QuietClaimStep(caps, st1, me, UserScope(q), q.userCharged);
      var (st2, o2) := Claim(caps, st1, me, UserScope(q), q.userCharged, Quiet());
      if !o2.Claimed? {
        RollbackUndoes(st, st2, n + 1, [n]);
      } else {
        QuietClaimStep(caps, st2, me, CountScope(q), q.legacyCount);
        var (st3, o3) := Claim(caps, st2, me, CountScope(q), q.legacyCount, Quiet());
        ExtendsTwice(st.rows, st1.rows, st2.rows, n, n + 1, n + 2);
        RollbackUndoes(st, st3, n + 2, [n, n + 1]);
      }
    }
  }

  lemma ExtendsTwice(a: Rows, b: Rows, c: Rows, lo: nat, mid: nat, hi: nat)
    requires lo <= mid <= hi && Extends(a, b, lo, mid) && Extends(b, c, mid, hi)
    ensures Extends(a, c, lo, hi)
  {
  }

  // Without interference, a call whose three scopes have room is admitted: one more live row in
  // each of them, nothing anywhere else.  Rolling the decision back restores both tables.
  lemma AdmissionAddsOneRowPerScope(caps: Caps, st: State, me: nat, q: Request)
    requires IdsOk(st) && q.principal != "GLOBAL" && OthersEnvs(QuietEnvs(), me)
    requires AllHaveRoom(caps, st.rows, q)
    ensures var (after, d) := Admit(caps, st, me, q, QuietEnvs());
            && d == Decision(true, Admitted, Some(st.nextId + 2), [st.nextId, st.nextId + 1])
            && Extends(st.rows, after.rows, st.nextId, st.nextId + 3)
            && (forall s :: |Live(after.rows, s)| == |Live(st.rows, s)| + (if Claims(q, s) then 1 else 0))
            && RollbackDecision(after, d).rows == st.rows
  {
    hide Rollback, Live, OthersEnv, Claim, Extends;
    ScopesDiffer(q);
    var n := st.nextId;
    QuietClaimStep(caps, st, me, GlobalScope(q), q.globalCharged);
    var (st1, o1) := Claim(caps, st, me, GlobalScope(q), q.globalCharged, Quiet());
    QuietClaimStep(caps, st1, me, UserScope(q), q.userCharged);
    var (st2, o2) := Claim(caps, st1, me, UserScope(q), q.userCharged, Quiet());
    QuietClaimStep(caps, st2, me, CountScope(q), q.legacyCount);
    var (st3, o3) := Claim(caps, st2, me, CountScope(q), q.legacyCount, Quiet());
    ExtendsTwice(st.rows, st1.rows, st2.rows, n, n + 1, n + 2);
    ExtendsTwice(st.rows, st2.rows, st3.rows, n, n + 2, n + 3);
    RollbackUndoes(st, st3, n + 3, [n + 2] + [n, n + 1]);
  }

  // One admission takes a slot from another request's global share iff the days agree, from its
  // user's share iff principals and days agree, and from its count iff, besides, both join or
  // neither does.
  lemma AdmissionTakesFrom(caps: Caps, st: State, me: nat, q: Request, r: Request)
    requires IdsOk(st) && q.principal != "GLOBAL" && r.principal != "GLOBAL" && OthersEnvs(QuietEnvs(), me)
    requires AllHaveRoom(caps, st.rows, q)
    ensures var rows := Admit(caps, st, me, q, QuietEnvs()).0.rows;
            && |Live(rows, GlobalScope(r))| == |Live(st.rows, GlobalScope(r))| + (if r.day == q.day then 1 else 0)
            && |Live(rows, UserScope(r))| == |Live(st.rows, UserScope(r))|
                 + (if r.principal == q.principal && r.day == q.day then 1 else 0)
            && |Live(rows, CountScope(r))| == |Live(st.rows, CountScope(r))|
                 + (if r.principal == q.principal && r.day == q.day && (r.action == Join <==> q.action == Join)
                    then 1 else 0)
  {
    hide Admit, Live, AllHaveRoom;
    AdmissionAddsOneRowPerScope(caps, st, me, q);
    BucketsDiffer();
  }

  lemma BucketsDiffer()
    ensures "join" != "game"
  {
    assert "join"[0] != "game"[0];
  }

  // The two tables have the same rows in the scopes the request claims in.
  ghost predicate SameForRequest(a: Rows, b: Rows, q: Request) {
    forall s: Scope :: Claims(q, s) ==> SameIn(a, b, s)
  }

  // What a call decides and the rows it adds depend on nothing but the rows of its own scopes: no
  // other principal, no other day and no other kind of action has a say.
  lemma OnlyOwnScopesMatter(caps: Caps, a: State, b: State, me: nat, q: Request) returns (added: Rows)
    requires IdsOk(a) && IdsOk(b) && q.principal != "GLOBAL" && OthersEnvs(QuietEnvs(), me)
    requires a.nextId == b.nextId && SameForRequest(a.rows, b.rows, q)
    ensures Admit(caps, a, me, q, QuietEnvs()).1 == Admit(caps, b, me, q, QuietEnvs()).1
    ensures added.Keys !! a.rows.Keys && added.Keys !! b.rows.Keys
    ensures forall k :: k in added ==> Claims(q, k.scope)
    ensures Admit(caps, a, me, q, QuietEnvs()).0.rows == a.rows + added
    ensures Admit(caps, b, me, q, QuietEnvs()).0.rows == b.rows + added
  {
    hide Rollback, Live, OthersEnv, Claim, IdsOk, SameIn, HasRoom;
    ScopesDiffer(q);
    SameRoom(caps, a.rows, b.rows, q);
    if AllHaveRoom(caps, a.rows, q) {
      AdmissionAddsOneRowPerScope(caps, a, me, q);
      AdmissionAddsOneRowPerScope(caps, b, me, q);
      added := AddedRows(caps, a, b, me, q);
    } else {
      DenialLeavesNothing(caps, a, me, q);
      DenialLeavesNothing(caps, b, me, q);
      added := map[];
      assert a.rows + added == a.rows && b.rows + added == b.rows;
    }
  }

  lemma SameRoom(caps: Caps, a: Rows, b: Rows, q: Request)
    requires SameForRequest(a, b, q)
    ensures AllHaveRoom(caps, a, q) == AllHaveRoom(caps, b, q) && FirstFull(caps, a, q) == FirstFull(caps, b, q)
  {
    var g, u := InferenceScope("GLOBAL", q.day), InferenceScope(q.principal, q.day);
    var c := AdmissionScope(q.principal, q.day, if q.action == Join then "join" else "game");
    assert Claims(q, g) && Claims(q, u) && Claims(q, c);
    hide SameIn, Live;
    SameLive(a, b, g);
    SameLive(a, b, u);
    SameLive(a, b, c);
  }

  // The same claim in two tables that agree on its scope adds the same row to both.
  lemma SameStep(caps: Caps, a: State, b: State, me: nat, s: Scope, charged: nat) returns (k: Key, row: Row)
    requires OthersEnv(Quiet(), me) && a.nextId == b.nextId && SameIn(a.rows, b.rows, s)
    requires HasRoom(caps, a.rows, s, charged)
    ensures var ((a1, o1), (b1, o2)) :=
              (Claim(caps, a, me, s, charged, Quiet()), Claim(caps, b, me, s, charged, Quiet()));
            && o1 == o2 == Claimed(a.nextId) && a1.nextId == b1.nextId == a.nextId + 1
            && a1.rows == a.rows[k := row] && b1.rows == b.rows[k := row]
    ensures k.scope == s && k !in a.rows && k !in b.rows
  {
    hide SameIn, NewSlot, FreeKey, BudgetClaim, Live;
    QuietBudgetClaim(caps, a, me, s, charged, None);
    QuietBudgetClaim(caps, b, me, s, charged, None);
    SameLive(a.rows, b.rows, s);
    k, row := SameClaim(a.rows, b.rows, a.nextId, s, MinNat(charged, caps(s)), None);
  }

  // So it does after rows were added to other scopes of both.
  lemma SameStepLater(caps: Caps, a0: Rows, b0: Rows, a: State, b: State, added: Rows, me: nat, s: Scope, charged: nat)
    returns (more: Rows)
    requires OthersEnv(Quiet(), me) && a.nextId == b.nextId && SameIn(a0, b0, s) && HasRoom(caps, a0, s, charged)
    requires added.Keys !! a0.Keys && added.Keys !! b0.Keys && a.rows == a0 + added && b.rows == b0 + added
    requires forall k :: k in added ==> k.scope != s
    ensures var ((a1, o1), (b1, o2)) :=
              (Claim(caps, a, me, s, charged, Quiet()), Claim(caps, b, me, s, charged, Quiet()));
            && o1.Claimed? && o2.Claimed? && a1.nextId == b1.nextId
            && a1.rows == a0 + more && b1.rows == b0 + more
    ensures more.Keys !! a0.Keys && more.Keys !! b0.Keys
    ensures forall k :: k in more ==> k in added || k.scope == s
  {
    hide Claim, SameIn, Live, OthersEnv;
    AddedElsewhere(a0, added, s);
    AddedElsewhere(b0, added, s);
    SameAll(a.rows, a0, b0, b.rows, s);
    SameLive(a.rows, a0, s);
    var k, row := SameStep(caps, a, b, me, s, charged);
    more := added[k := row];
    AddOne(a0, added, k, row);
    AddOne(b0, added, k, row);
  }

  lemma AddOne(rows: Rows, added: Rows, k: Key, row: Row)
    ensures (rows + added)[k := row] == rows + added[k := row]
  {
  }

  // Rows added elsewhere leave a scope as it was.
  lemma AddedElsewhere(rows: Rows, added: Rows, s: Scope)
    requires forall k :: k in added ==> k.scope != s
    ensures SameIn(rows + added, rows, s)
  {
  }

  lemma SameAll(a1: Rows, a: Rows, b: Rows, b1: Rows, s: Scope)
    requires SameIn(a1, a, s) && SameIn(a, b, s) && SameIn(b1, b, s)
    ensures SameIn(a1, b1, s)
  {
  }

  lemma AddedRows(caps: Caps, a: State, b: State, me: nat, q: Request) returns (added: Rows)
    requires q.principal != "GLOBAL" && OthersEnvs(QuietEnvs(), me)
    requires a.nextId == b.nextId && SameForRequest(a.rows, b.rows, q) && AllHaveRoom(caps, a.rows, q)
    ensures added.Keys !! a.rows.Keys && added.Keys !! b.rows.Keys
    ensures forall k :: k in added ==> Claims(q, k.scope)
    ensures Admit(caps, a, me, q, QuietEnvs()).0.rows == a.rows + added
    ensures Admit(caps, b, me, q, QuietEnvs()).0.rows == b.rows + added
  {
    hide Rollback, Live, OthersEnv, Claim, SameIn, HasRoom;
    var g, u, c := GlobalScope(q), UserScope(q), CountScope(q);
    assert Claims(q, g) && Claims(q, u) && Claims(q, c);
    ScopesDiffer(q);
    assert a.rows + map[] == a.rows && b.rows + map[] == b.rows;
    var one := SameStepLater(caps, a.rows, b.rows, a, b, map[], me, g, q.globalCharged);
    var (a1, o1) := Claim(caps, a, me, g, q.globalCharged, Quiet());
    var (b1, p1) := Claim(caps, b, me, g, q.globalCharged, Quiet());
    var two := SameStepLater(caps, a.rows, b.rows, a1, b1, one, me, u, q.userCharged);
    var (a2, o2) := Claim(caps, a1, me, u, q.userCharged, Quiet());
    var (b2, p2) := Claim(caps, b1, me, u, q.userCharged, Quiet());
    added := SameStepLater(caps, a.rows, b.rows, a2, b2, two, me, c, q.legacyCount);
  }

  // ------------------------------------------------ all-or-nothing, with interference

  // The steps the claims commit, others' steps included.
  function ClaimsTrace(caps: Caps, st: State, me: nat, q: Request, e: Envs): seq<Step>
    requires OthersEnvs(e, me)
  {
    var (st1, o1) := Claim(caps, st, me, GlobalScope(q), q.globalCharged, e.global);
    var t1 := SlotTrace(caps, st, me, GlobalScope(q), q.globalCharged, e.global);
    if !o1.Claimed? then t1
    else
      var (st2, o2) := Claim(caps, st1, me, UserScope(q), q.userCharged, e.user);
      var t2 := t1 + SlotTrace(caps, st1, me, UserScope(q), q.userCharged, e.user);
      if !o2.Claimed? then t2
      else t2 + SlotTrace(caps, st2, me, CountScope(q), q.legacyCount, e.count)
  }

  // The hard deletes of a denied call.
  function RollbackTrace(caps: Caps, st: State, me: nat, q: Request, e: Envs): seq<Step>
    requires OthersEnvs(e, me)
  {
    var (st1, o1) := Claim(caps, st, me, GlobalScope(q), q.globalCharged, e.global);
    if !o1.Claimed? then []
    else
      var (st2, o2) := Claim(caps, st1, me, UserScope(q), q.userCharged, e.user);
      if !o2.Claimed? then [Delete(o1.id)]
      else if Claim(caps, st2, me, CountScope(q), q.legacyCount, e.count).1.Claimed? then []
      else [Delete(o1.id), Delete(o2.id)]
  }

  function AdmitTrace(caps: Caps, st: State, me: nat, q: Request, e: Envs): seq<Step>
    requires OthersEnvs(e, me)
  {
    ClaimsTrace(caps, st, me, q, e) + RollbackTrace(caps, st, me, q, e)
  }

  function SlotTrace(caps: Caps, st: State, me: nat, s: Scope, charged: nat, env: Env): seq<Step>
    requires OthersEnv(env, me)
  {
    if caps(s) == 0 then [] else ClaimTrace(caps, st, me, s, MinNat(charged, caps(s)), None, env, 0)
  }

  lemma SlotTraceIsRun(caps: Caps, st: State, me: nat, s: Scope, charged: nat, env: Env)
    requires OthersEnv(env, me)
    ensures Run(caps, st, SlotTrace(caps, st, me, s, charged, env)) == Claim(caps, st, me, s, charged, env).0
  {
    if caps(s) > 0 {
      ClaimIsRun(caps, st, me, s, MinNat(charged, caps(s)), None, env, 0);
    }
  }

  // An admission, denied or not, is a run of the slot protocol, so the caps hold throughout.
  lemma AdmitIsRun(caps: Caps, st: State, me: nat, q: Request, e: Envs)
    requires OthersEnvs(e, me)
    ensures Run(caps, st, AdmitTrace(caps, st, me, q, e)) == Admit(caps, st, me, q, e).0
  {
    hide Run, Claim, SlotTrace, OthersEnv;
    assert ClaimsTrace(caps, st, me, q, e) + [] == ClaimsTrace(caps, st, me, q, e);
    var (st1, o1) := Claim(caps, st, me, GlobalScope(q), q.globalCharged, e.global);
    var t1 := SlotTrace(caps, st, me, GlobalScope(q), q.globalCharged, e.global);
    SlotTraceIsRun(caps, st, me, GlobalScope(q), q.globalCharged, e.global);
    if o1.Claimed? {
      var (st2, o2) := Claim(caps, st1, me, UserScope(q), q.userCharged, e.user);
      var t2 := SlotTrace(caps, st1, me, UserScope(q), q.userCharged, e.user);
      SlotTraceIsRun(caps, st1, me, UserScope(q), q.userCharged, e.user);
      RunConcat(caps, st, t1, t2);
      if !o2.Claimed? {
        RunOne(caps, st, t1 + t2, Delete(o1.id));
        RollbackOne(st2, o1.id);
      } else {
        var (st3, o3) := Claim(caps, st2, me, CountScope(q), q.legacyCount, e.count);
        var t3 := SlotTrace(caps, st2, me, CountScope(q), q.legacyCount, e.count);
        SlotTraceIsRun(caps, st2, me, CountScope(q), q.legacyCount, e.count);
        RunConcat(caps, st, t1 + t2, t3);
        if !o3.Claimed? {
          RunOne(caps, st, t1 + t2 + t3, Delete(o1.id));
          RunOne(caps, st, t1 + t2 + t3 + [Delete(o1.id)], Delete(o2.id));
          assert t1 + t2 + t3 + [Delete(o1.id), Delete(o2.id)] == t1 + t2 + t3 + [Delete(o1.id)] + [Delete(o2.id)];
          RollbackTwo(st3, o1.id, o2.id);
        }
      }
    }
  }

  lemma RollbackOne(st: State, a: nat)
    ensures Rollback(st, [a]) == st.(rows := Remove(st.rows, a))
  {
    assert [a][1..] == [];
    assert Rollback(st, [a]) == Rollback(st.(rows := Remove(st.rows, a)), []);
  }

  lemma RollbackTwo(st: State, a: nat, b: nat)
    ensures Rollback(st, [a, b]) == st.(rows := Remove(Remove(st.rows, a), b))
  {
    assert [a, b][1..] == [b];
    RollbackOne(st.(rows := Remove(st.rows, a)), b);
  }

  ghost predicate NoneLeft(st: State, ids: set<nat>) {
    forall k :: k in st.rows ==> st.rows[k].id !in ids
  }

  lemma RollbackLeavesNone(st: State, ids: seq<nat>, me: nat, n: nat)
    requires forall id :: id in Mine(st, me, n) ==> id in ids
    ensures NoneLeft(Rollback(st, ids), Mine(st, me, n)) && Mine(Rollback(st, ids), me, n) == Mine(st, me, n)
  {
    RollbackRemoves(st, ids);
  }

  // Whatever other sessions do meanwhile, a denied call leaves no row it wrote, and an admitted
  // call wrote exactly the three rows its decision names.
  lemma DeniedCallLeavesNoRow(caps: Caps, st: State, me: nat, q: Request, e: Envs)
    requires OthersEnvs(e, me)
    ensures var (after, d) := Admit(caps, st, me, q, e);
            var mine := Mine(after, me, |st.log|);
            && (!d.allowed ==> NoneLeft(after, mine))
            && (d.allowed ==> d.countSlot.Some? && |d.reservations| == 2
                              && mine == {d.reservations[0], d.reservations[1], d.countSlot.value})
  {
    hide Rollback, BudgetClaim, Mine, OthersEnv;
    var n := |st.log|;
    NothingMineYet(st, me);
    BudgetClaimAddsMine(caps, st, me, GlobalScope(q), q.globalCharged, None, e.global, n);
    var (st1, o1) := Claim(caps, st, me, GlobalScope(q), q.globalCharged, e.global);
    if o1.Claimed? {
      BudgetClaimAddsMine(caps, st1, me, UserScope(q), q.userCharged, None, e.user, n);
      var (st2, o2) := Claim(caps, st1, me, UserScope(q), q.userCharged, e.user);
      if !o2.Claimed? {
        RollbackLeavesNone(st2, [o1.id], me, n);
      } else {
        BudgetClaimAddsMine(caps, st2, me, CountScope(q), q.legacyCount, None, e.count, n);
        var (st3, o3) := Claim(caps, st2, me, CountScope(q), q.legacyCount, e.count);
        if !o3.Claimed? {
          RollbackLeavesNone(st3, [o1.id, o2.id], me, n);
        }
      }
    }
  }

  // ------------------------------------------------ an admitted call holds its rows

  // If the others touch, by id, only rows of decisions of their own, an admitted call ends with
  // all three of its rows live and unbound, in its three scopes.
  lemma AdmittedCallHoldsItsRows(caps: Caps, st: State, me: nat, q: Request, e: Envs)
    requires OthersEnvs(e, me) && Admit(caps, st, me, q, e).1.allowed
    requires RespectfulRun(caps, st, ClaimsTrace(caps, st, me, q, e), me)
    ensures var (after, d) := Admit(caps, st, me, q, e);
            && |d.reservations| == 2 && d.countSlot.Some?
            && Held(after, GlobalScope(q), d.reservations[0], None)
            && Held(after, UserScope(q), d.reservations[1], None)
            && Held(after, CountScope(q), d.countSlot.value, None)
            && Wrote(after, me, d.reservations[0]) && Wrote(after, me, d.reservations[1])
            && Wrote(after, me, d.countSlot.value)
  {
    hide Run, BudgetClaim, SlotTrace, OthersEnv, Held, RespectfulRun;
    var (st1, o1) := Claim(caps, st, me, GlobalScope(q), q.globalCharged, e.global);
    var (st2, o2) := Claim(caps, st1, me, UserScope(q), q.userCharged, e.user);
    var t1 := SlotTrace(caps, st, me, GlobalScope(q), q.globalCharged, e.global);
    var t2 := SlotTrace(caps, st1, me, UserScope(q), q.userCharged, e.user);
    var t3 := SlotTrace(caps, st2, me, CountScope(q), q.legacyCount, e.count);
    SlotTraceIsRun(caps, st, me, GlobalScope(q), q.globalCharged, e.global);
    SlotTraceIsRun(caps, st1, me, UserScope(q), q.userCharged, e.user);
    SlotTraceIsRun(caps, st2, me, CountScope(q), q.legacyCount, e.count);
    assert t1 + t2 + t3 == t1 + (t2 + t3);
    RespectfulConcat(caps, st, t1, t2 + t3, me);
    RespectfulConcat(caps, st1, t2, t3, me);
    BudgetClaimHolds(caps, st, me, GlobalScope(q), q.globalCharged, None, e.global);
    BudgetClaimHolds(caps, st1, me, UserScope(q), q.userCharged, None, e.user);
    BudgetClaimHolds(caps, st2, me, CountScope(q), q.legacyCount, None, e.count);
    RunKeepsHeld(caps, st1, t2, me, GlobalScope(q), o1.id, None);
    RunKeepsHeld(caps, st2, t3, me, GlobalScope(q), o1.id, None);
    RunKeepsHeld(caps, st2, t3, me, UserScope(q), o2.id, None);
  }

  // ------------------------------------------------ caps over whole runs of the human lane

  predicate Bound(row: Row) { row.lobby.Some? || row.member.Some? }

  // The human lane's use of the tables: releases go by lobby or member, a bind names one of
  // them, and only rows never bound are hard-deleted.
  predicate HumanLaneStep(st: State, step: Step) {
    match step
    case Read(_, _, _, _) => true
    case Insert(_) => true
    case ReleaseLobby(_) => true
    case ReleaseMember(_) => true
    case ReleaseInferenceOfLobby(_) => true
    case Bind(_, lobby, member) => lobby.Some? || member.Some?
    case Delete(id) => forall k :: k in st.rows && st.rows[k].id == id ==> !Bound(st.rows[k])
    case _ => false
  }

  predicate HumanLaneRun(caps: Caps, st: State, steps: seq<Step>)
    decreases |steps|
  {
    steps == [] || (HumanLaneStep(st, steps[0]) && HumanLaneRun(caps, Next(caps, st, steps[0]), steps[1..]))
  }

  predicate ReleasedAreBound(rows: Rows) {
    forall k :: k in rows && rows[k].released ==> Bound(rows[k])
  }

  lemma {:induction false} HumanLaneIsLegal(caps: Caps, st: State, steps: seq<Step>)
    requires ReleasedAreBound(st.rows) && HumanLaneRun(caps, st, steps)
    ensures LegalRun(caps, st, steps)
    decreases |steps|
  {
    if steps != [] {
      assert ReleasedAreBound(Next(caps, st, steps[0]).rows);
      HumanLaneIsLegal(caps, Next(caps, st, steps[0]), steps[1..]);
    }
  }

  // In every run mixing admissions, binds, releases and rollbacks of any number of sessions, the
  // live rows of every scope stay within its cap.
  lemma HumanCapsHold(caps: Caps, steps: seq<Step>, s: Scope)
    requires HumanLaneRun(caps, EMPTY, steps)
    ensures |Live(Run(caps, EMPTY, steps).rows, s)| <= caps(s)
  {
    HumanLaneIsLegal(caps, EMPTY, steps);
    CapHoldsInEveryRun(caps, (t: Scope) => 0, steps, s);
  }

  // Deleting a row that is still unbound is a step of the human lane.
  lemma DeleteHeldIsHumanLane(st: State, s: Scope, id: nat)
    requires IdsOk(st) && Held(st, s, id, None)
    ensures HumanLaneStep(st, Delete(id))
  {
  }

  lemma {:induction false} HumanLaneConcat(caps: Caps, st: State, a: seq<Step>, b: seq<Step>)
    ensures HumanLaneRun(caps, st, a + b) <==> HumanLaneRun(caps, st, a) && HumanLaneRun(caps, Run(caps, st, a), b)
    decreases |a|
  {
    if a == [] {
      assert a + b == b;
    } else {
      assert (a + b)[0] == a[0] && (a + b)[1..] == a[1..] + b;
      HumanLaneConcat(caps, Next(caps, st, a[0]), a[1..], b);
    }
  }

  // A call whose surroundings keep to the human lane and to their own decisions keeps to it too,
  // its rollback included: so HumanCapsHold covers runs built from whole admissions.
  lemma AdmissionIsHumanLane(caps: Caps, st: State, me: nat, q: Request, e: Envs)
    requires OthersEnvs(e, me) && IdsOk(st)
    requires RespectfulRun(caps, st, ClaimsTrace(caps, st, me, q, e), me)
    requires HumanLaneRun(caps, st, ClaimsTrace(caps, st, me, q, e))
    ensures HumanLaneRun(caps, st, AdmitTrace(caps, st, me, q, e))
  {
    hide Run, BudgetClaim, SlotTrace, OthersEnv, Held, RespectfulRun, IdsOk, Rollback, HumanLaneStep;
    var (st1, o1) := Claim(caps, st, me, GlobalScope(q), q.globalCharged, e.global);
    var t1 := SlotTrace(caps, st, me, GlobalScope(q), q.globalCharged, e.global);
    var rollback := RollbackTrace(caps, st, me, q, e);
    HumanLaneConcat(caps, st, ClaimsTrace(caps, st, me, q, e), rollback);
    SlotTraceIsRun(caps, st, me, GlobalScope(q), q.globalCharged, e.global);
    RunKeepsIds(caps, st, t1);
    if o1.Claimed? {
      BudgetClaimHolds(caps, st, me, GlobalScope(q), q.globalCharged, None, e.global);
      var (st2, o2) := Claim(caps, st1, me, UserScope(q), q.userCharged, e.user);
      var t2 := SlotTrace(caps, st1, me, UserScope(q), q.userCharged, e.user);
      SlotTraceIsRun(caps, st1, me, UserScope(q), q.userCharged, e.user);
      RunConcat(caps, st, t1, t2);
      RunKeepsIds(caps, st1, t2);
      if !o2.Claimed? {
        RespectfulConcat(caps, st, t1, t2, me);
        RunKeepsHeld(caps, st1, t2, me, GlobalScope(q), o1.id, None);
        DeleteHeldIsHumanLane(st2, GlobalScope(q), o1.id);
        OneStepHumanLane(caps, st2, Delete(o1.id));
      } else if !Claim(caps, st2, me, CountScope(q), q.legacyCount, e.count).1.Claimed? {
        var t3 := SlotTrace(caps, st2, me, CountScope(q), q.legacyCount, e.count);
        var st3 := Claim(caps, st2, me, CountScope(q), q.legacyCount, e.count).0;
        SlotTraceIsRun(caps, st2, me, CountScope(q), q.legacyCount, e.count);
        RunConcat(caps, st, t1 + t2, t3);
        RunKeepsIds(caps, st2, t3);
        BudgetClaimHolds(caps, st1, me, UserScope(q), q.userCharged, None, e.user);
        RespectfulConcat(caps, st, t1 + t2, t3, me);
        RespectfulConcat(caps, st, t1, t2, me);
        RunKeepsHeld(caps, st1, t2, me, GlobalScope(q), o1.id, None);
        RunKeepsHeld(caps, st2, t3, me, GlobalScope(q), o1.id, None);
        RunKeepsHeld(caps, st2, t3, me, UserScope(q), o2.id, None);
        TwoDeletesHumanLane(caps, st3, GlobalScope(q), o1.id, UserScope(q), o2.id);
      }
    }
  }

  lemma OneStepHumanLane(caps: Caps, st: State, step: Step)
    requires HumanLaneStep(st, step)
    ensures HumanLaneRun(caps, st, [step])
  {
    hide HumanLaneStep, Next;
    assert [step][1..] == [];
    assert HumanLaneRun(caps, Next(caps, st, step), []);
  }

  lemma TwoDeletesHumanLane(caps: Caps, st: State, s: Scope, a: nat, t: Scope, b: nat)
    requires IdsOk(st) && Held(st, s, a, None) && Held(st, t, b, None)
    ensures HumanLaneRun(caps, st, [Delete(a), Delete(b)])
  {
    DeleteHeldIsHumanLane(st, s, a);
    DeleteHeldIsHumanLane(st, t, b);
    OneStepHumanLane(caps, st, Delete(a));
    var mid := Next(caps, st, Delete(a));
    assert HumanLaneStep(mid, Delete(b));
    OneStepHumanLane(caps, mid, Delete(b));
    assert [Delete(a), Delete(b)][1..] == [Delete(b)];
  }

  // ------------------------------------------------ rolling back an admitted decision

  function Deletes(ids: seq<nat>): seq<Step> {
    seq(|ids|, i requires 0 <= i < |ids| => Delete(ids[i]))
  }

  // No row with this id is bound.
  ghost predicate Unbound(st: State, id: nat) {
    forall k :: k in st.rows && st.rows[k].id == id ==> !Bound(st.rows[k])
  }

  // Deleting rows that are all unbound is a run of the human lane, and is what a rollback does.
  lemma {:induction false} DeletesAreHumanLane(caps: Caps, st: State, ids: seq<nat>)
    requires forall id :: id in ids ==> Unbound(st, id)
    ensures HumanLaneRun(caps, st, Deletes(ids))
    ensures Run(caps, st, Deletes(ids)) == Rollback(st, ids)
    decreases |ids|
  {
    if ids != [] {
      var next := Next(caps, st, Delete(ids[0]));
      assert Unbound(st, ids[0]);
      forall id | id in ids[1..] ensures Unbound(next, id) { assert Unbound(st, id); }
      DeletesAreHumanLane(caps, next, ids[1..]);
      assert Deletes(ids)[0] == Delete(ids[0]) && Deletes(ids)[1..] == Deletes(ids[1..]);
    }
  }

  lemma HeldIsUnbound(st: State, s: Scope, id: nat)
    requires IdsOk(st) && Held(st, s, id, None)
    ensures Unbound(st, id)
  {
  }

  // An admitted call may also be rolled back later, before its decision is bound: whatever the
  // others have done meanwhile to rows of their own, the three rows are still held, and deleting
  // them stays in the human lane.
  lemma LaterRollbackIsHumanLane(caps: Caps, st: State, me: nat, q: Request, e: Envs, steps: seq<Step>)
    requires OthersEnvs(e, me) && IdsOk(st) && Admit(caps, st, me, q, e).1.allowed
    requires RespectfulRun(caps, st, ClaimsTrace(caps, st, me, q, e), me)
    requires var after := Admit(caps, st, me, q, e).0;
             RespectfulRun(caps, after, steps, me) && HumanLaneRun(caps, after, steps)
    ensures var (after, d) := Admit(caps, st, me, q, e);
            var later := Run(caps, after, steps);
            && |d.reservations| == 2 && d.countSlot.Some?
            && Held(later, GlobalScope(q), d.reservations[0], None)
            && Held(later, UserScope(q), d.reservations[1], None)
            && Held(later, CountScope(q), d.countSlot.value, None)
            && HumanLaneRun(caps, after, steps + Deletes(DecisionIds(d)))
            && Run(caps, after, steps + Deletes(DecisionIds(d))) == RollbackDecision(later, d)
  {
    AdmittedCallHoldsItsRows(caps, st, me, q, e);
    AdmitIsRun(caps, st, me, q, e);
    var (after, d) := Admit(caps, st, me, q, e);
    hide *;
    RunKeepsIds(caps, st, AdmitTrace(caps, st, me, q, e));
    RunKeepsIds(caps, after, steps);
    NoneSpared(steps, GlobalScope(q));
    NoneSpared(steps, UserScope(q));
    NoneSpared(steps, CountScope(q));
    RunKeepsHeld(caps, after, steps, me, GlobalScope(q), d.reservations[0], None);
    RunKeepsHeld(caps, after, steps, me, UserScope(q), d.reservations[1], None);
    RunKeepsHeld(caps, after, steps, me, CountScope(q), d.countSlot.value, None);
    var later := Run(caps, after, steps);
    HeldIsUnbound(later, GlobalScope(q), d.reservations[0]);
    HeldIsUnbound(later, UserScope(q), d.reservations[1]);
    HeldIsUnbound(later, CountScope(q), d.countSlot.value);
    ThreeIds(d);
    DeletesAreHumanLane(caps, later, DecisionIds(d));
    RollbackIsById(later, d);
    HumanLaneConcat(caps, after, steps, Deletes(DecisionIds(d)));
    RunConcat(caps, after, steps, Deletes(DecisionIds(d)));
  }

  // Rows without a binding key are spared by every release by key.
  lemma NoneSpared(steps: seq<Step>, s: Scope)
    ensures AllSpare(steps, s, None)
  {
  }

  lemma ThreeIds(d: Decision)
    requires |d.reservations| == 2 && d.countSlot.Some?
    ensures forall id :: id in DecisionIds(d) ==> id in {d.countSlot.value, d.reservations[0], d.reservations[1]}
  {
  }

  lemma RollbackIsById(st: State, d: Decision)
    ensures RollbackDecision(st, d) == Rollback(st, DecisionIds(d))
  {
  }

  // ------------------------------------------------ why a call is denied

  // The claim that decided the call: the state it ended in, and its outcome.
  function LastClaim(caps: Caps, st: State, me: nat, q: Request, e: Envs): (State, Outcome)
    requires OthersEnvs(e, me)
  {
    var (st1, o1) := Claim(caps, st, me, GlobalScope(q), q.globalCharged, e.global);
    if !o1.Claimed? then (st1, o1)
    else
      var (st2, o2) := Claim(caps, st1, me, UserScope(q), q.userCharged, e.user);
      if !o2.Claimed? then (st2, o2) else Claim(caps, st2, me, CountScope(q), q.legacyCount, e.count)
  }

  function ScopeOf(q: Request, reason: Reason): Scope {
    if reason == BreakerOpen then GlobalScope(q)
    else if reason == DailyInferenceCap then UserScope(q)
    else CountScope(q)
  }

  function ChargeOf(q: Request, reason: Reason): nat {
    if reason == BreakerOpen then q.globalCharged
    else if reason == DailyInferenceCap then q.userCharged
    else q.legacyCount
  }

  // Whatever others do, a denial names the scope of the claim that failed; that scope was full when
  // the claim ended, or the claim lost every race in it.
  lemma DenialHasItsReason(caps: Caps, st: State, me: nat, q: Request, e: Envs)
    requires OthersEnvs(e, me) && !Admit(caps, st, me, q, e).1.allowed
    ensures var (reason, last) := (Admit(caps, st, me, q, e).1.reason, LastClaim(caps, st, me, q, e));
            && reason in {BreakerOpen, DailyInferenceCap, CountCapReason(q)}
            && Refused(caps, last.0, last.1, ScopeOf(q, reason), ChargeOf(q, reason))
  {
    hide BudgetClaim, OthersEnv, Rollback, Refused;
    BudgetClaimRefusal(caps, st, me, GlobalScope(q), q.globalCharged, None, e.global);
    var (st1, o1) := Claim(caps, st, me, GlobalScope(q), q.globalCharged, e.global);
    if o1.Claimed? {
      BudgetClaimRefusal(caps, st1, me, UserScope(q), q.userCharged, None, e.user);
      var (st2, o2) := Claim(caps, st1, me, UserScope(q), q.userCharged, e.user);
      if o2.Claimed? { BudgetClaimRefusal(caps, st2, me, CountScope(q), q.legacyCount, None, e.count); }
    }
  }

  // ------------------------------------------------ binding a decision to its lobby

  function BindAll(rows: Rows, ids: seq<nat>, lobby: Option<nat>, member: Option<nat>): (r: Rows)
    ensures r.Keys == rows.Keys
    decreases |ids|
  {
    if ids == [] then rows else BindAll(Update(Bind(ids[0], lobby, member), rows), ids[1..], lobby, member)
  }

  method BindAdmissionSlots(store: Store, d: Decision, lobby: Option<nat>, member: Option<nat>)
    modifies store
    ensures store.rows == BindAll(old(store.rows), DecisionIds(d), lobby, member)
    ensures store.inFlight == old(store.inFlight) && store.nextId == old(store.nextId) && store.log == old(store.log)
  {
    hide BindAll, Update;
    var ids := DecisionIds(d);
    var i := 0;
    assert ids[i..] == ids;
    while i < |ids|
      invariant 0 <= i <= |ids|
      invariant BindAll(store.rows, ids[i..], lobby, member) == BindAll(old(store.rows), ids, lobby, member)
      invariant store.inFlight == old(store.inFlight) && store.nextId == old(store.nextId)
                && store.log == old(store.log)
    {
      BindAllStep(store.rows, ids, i, lobby, member);
      store.rows := Update(Bind(ids[i], lobby, member), store.rows);
      i := i + 1;
    }
    BindNone(store.rows, ids[i..], lobby, member);
  }

  lemma BindAllStep(rows: Rows, ids: seq<nat>, i: nat, lobby: Option<nat>, member: Option<nat>)
    requires i < |ids|
    ensures BindAll(rows, ids[i..], lobby, member)
            == BindAll(Update(Bind(ids[i], lobby, member), rows), ids[i + 1..], lobby, member)
  {
    assert ids[i..][0] == ids[i] && ids[i..][1..] == ids[i + 1..];
  }

  lemma BindNone(rows: Rows, ids: seq<nat>, lobby: Option<nat>, member: Option<nat>)
    requires ids == []
    ensures BindAll(rows, ids, lobby, member) == rows
  {
  }

  lemma {:induction false} BindAllOne(rows: Rows, ids: seq<nat>, lobby: Option<nat>, member: Option<nat>, k: Key)
    requires k in rows
    ensures BindAll(rows, ids, lobby, member)[k]
            == if rows[k].id in ids then rows[k].(lobby := lobby, member := member) else rows[k]
    decreases |ids|
  {
    if ids != [] {
      BindAllOne(Update(Bind(ids[0], lobby, member), rows), ids[1..], lobby, member, k);
      assert rows[k].id in ids <==> rows[k].id == ids[0] || rows[k].id in ids[1..];
    }
  }

  // One call of bind_admission_slots.
  datatype Binding = Binding(decision: Decision, lobby: Option<nat>, member: Option<nat>)

  function BindEach(rows: Rows, bs: seq<Binding>): (r: Rows)
    ensures r.Keys == rows.Keys
    decreases |bs|
  {
    if bs == [] then rows
    else
      var b := bs[|bs| - 1];
      BindAll(BindEach(rows, bs[..|bs| - 1]), DecisionIds(b.decision), b.lobby, b.member)
  }

  predicate Names(b: Binding, row: Row) { row.id in DecisionIds(b.decision) }

  // No row belongs to two decisions, as row ids are fresh.
  predicate OwnRows(bs: seq<Binding>) {
    forall i, j :: 0 <= i < j < |bs| ==>
      forall id :: id in DecisionIds(bs[i].decision) ==> id !in DecisionIds(bs[j].decision)
  }

  // A row ends with the lobby and member of the decision it belongs to, and every other row as it
  // was.
  lemma {:induction false} BindEachAt(rows: Rows, bs: seq<Binding>, k: Key)
    requires OwnRows(bs) && k in rows
    ensures forall i :: 0 <= i < |bs| && Names(bs[i], rows[k]) ==>
              BindEach(rows, bs)[k] == rows[k].(lobby := bs[i].lobby, member := bs[i].member)
    ensures (forall i :: 0 <= i < |bs| ==> !Names(bs[i], rows[k])) ==> BindEach(rows, bs)[k] == rows[k]
    ensures BindEach(rows, bs)[k].id == rows[k].id && BindEach(rows, bs)[k].released == rows[k].released
    decreases |bs|
  {
    if bs != [] {
      var p, b := bs[..|bs| - 1], bs[|bs| - 1];
      OwnRowsBefore(bs);
      BindEachAt(rows, p, k);
      BindAllOne(BindEach(rows, p), DecisionIds(b.decision), b.lobby, b.member, k);
      hide BindAll, DecisionIds, OwnRows;
    }
  }

  lemma OwnRowsBefore(bs: seq<Binding>)
    requires bs != [] && OwnRows(bs)
    ensures var p := bs[..|bs| - 1];
            && OwnRows(p) && (forall i :: 0 <= i < |p| ==> p[i] == bs[i])
            && forall row: Row, i :: 0 <= i < |p| && Names(p[i], row) ==> !Names(bs[|bs| - 1], row)
  {
    hide DecisionIds;
    var p := bs[..|bs| - 1];
    assert forall i :: 0 <= i < |p| ==> p[i] == bs[i];
  }

  // The row was bound to this lobby, or this member, by the decision it belongs to; a row of no
  // decision keeps what it was bound to before.
  predicate OfLobby(row: Row, bs: seq<Binding>, lobby: nat) {
    || (exists i :: 0 <= i < |bs| && Names(bs[i], row) && bs[i].lobby == Some(lobby))
    || (row.lobby == Some(lobby) && forall i :: 0 <= i < |bs| ==> !Names(bs[i], row))
  }

  predicate OfMember(row: Row, bs: seq<Binding>, member: nat) {
    || (exists i :: 0 <= i < |bs| && Names(bs[i], row) && bs[i].member == Some(member))
    || (row.member == Some(member) && forall i :: 0 <= i < |bs| ==> !Names(bs[i], row))
  }

  // However many decisions were bound to however many lobbies: abandoning a lobby releases exactly
  // the rows bound to it, a departing member releases exactly its own, and materializing a lobby's
  // game releases exactly the lobby's $ reservations and leaves the count slots held.
  lemma ReleasesFollowBindings(rows: Rows, bs: seq<Binding>, lobby: nat, member: nat, k: Key)
    requires OwnRows(bs) && k in rows && !k.scope.BudgetScope?
    ensures var bound := BindEach(rows, bs);
            && (Update(ReleaseLobby(lobby), bound)[k].released <==> rows[k].released || OfLobby(rows[k], bs, lobby))
            && (Update(ReleaseMember(member), bound)[k].released <==> rows[k].released || OfMember(rows[k], bs, member))
            && (Update(ReleaseInferenceOfLobby(lobby), bound)[k].released <==>
                  rows[k].released || (k.scope.InferenceScope? && OfLobby(rows[k], bs, lobby)))
  {
    hide OwnRows, OfLobby, OfMember, BindEach, Update;
    BoundAs(rows, bs, lobby, member, k);
    UpdateAt(ReleaseLobby(lobby), BindEach(rows, bs), k);
    UpdateAt(ReleaseMember(member), BindEach(rows, bs), k);
    UpdateAt(ReleaseInferenceOfLobby(lobby), BindEach(rows, bs), k);
  }

  lemma UpdateAt(step: Step, rows: Rows, k: Key)
    requires k in rows && !step.Bind?
    ensures k in Update(step, rows)
    ensures Update(step, rows)[k].released <==> rows[k].released || Releases(step, k, rows[k])
  {
  }

  lemma BoundAs(rows: Rows, bs: seq<Binding>, lobby: nat, member: nat, k: Key)
    requires OwnRows(bs) && k in rows
    ensures BindEach(rows, bs)[k].released == rows[k].released
    ensures BindEach(rows, bs)[k].lobby == Some(lobby) <==> OfLobby(rows[k], bs, lobby)
    ensures BindEach(rows, bs)[k].member == Some(member) <==> OfMember(rows[k], bs, member)
  {
    hide BindEach, Names;
    BindEachAt(rows, bs, k);
    if i :| 0 <= i < |bs| && Names(bs[i], rows[k]) {
      OneOwner(bs, rows[k], i);
    }
  }

  lemma OneOwner(bs: seq<Binding>, row: Row, i: nat)
    requires OwnRows(bs) && i < |bs| && Names(bs[i], row)
    ensures forall j :: 0 <= j < |bs| && Names(bs[j], row) ==> j == i
  {
  }
}
