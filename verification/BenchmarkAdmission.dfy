// reserve_benchmark_budget: a game reserves one global and, when it belongs to a campaign, one
// campaign slot; a failed campaign claim releases the global slot again.
module BenchmarkAdmission {
  import opened Options
  import opened Utils
  import opened Slots
  import opened SlotBudget
  import opened SlotClaims
  import opened SlotStore
  import opened SlotOwnership
  import opened BudgetClaims

  datatype Reason = Admitted | GlobalBudgetCap | CampaignBudgetCap

  datatype Reservation = Reservation(globalSlot: nat, campaignSlot: Option<nat>)

  datatype Decision = Decision(allowed: bool, reason: Reason, reservation: Option<Reservation>)

  // The game's binding key, its campaign if any, and the charged slots both sums round up to.
  datatype Request = Request(bindingKey: string, campaign: Option<string>, globalCharged: nat, campaignCharged: nat)

  function GlobalScope(): Scope { BudgetScope("global:benchmark") }

  function CampaignScope(campaign: string): Scope { BudgetScope("campaign:" + campaign) }

  function Release(st: State, id: nat): State {
    st.(rows := Update(ReleaseId(id), st.rows))
  }

  function Reserve(caps: Caps, st: State, me: nat, q: Request, global: Env, campaign: Env): (State, Decision)
    requires OthersEnv(global, me) && OthersEnv(campaign, me)
  {
    var (st1, o1) := BudgetClaim(caps, st, me, GlobalScope(), q.globalCharged, Some(q.bindingKey), global);
    if !o1.Claimed? then (st1, Decision(false, GlobalBudgetCap, None))
    else if q.campaign.None? then (st1, Decision(true, Admitted, Some(Reservation(o1.id, None))))
    else
      var (st2, o2) := BudgetClaim(caps, st1, me, CampaignScope(q.campaign.value), q.campaignCharged,
                                   Some(q.bindingKey), campaign);
      if !o2.Claimed? then (Release(st2, o1.id), Decision(false, CampaignBudgetCap, None))
      else (st2, Decision(true, Admitted, Some(Reservation(o1.id, Some(o2.id)))))
  }

  function ReleaseReservation(st: State, r: Reservation): State {
    var st1 := Release(st, r.globalSlot);
    if r.campaignSlot.Some? then Release(st1, r.campaignSlot.value) else st1
  }

  method ReserveBenchmarkBudget(store: Store, caps: Caps, me: nat, bindingKey: string, campaign: Option<string>,
                                globalSpent: real, globalCap: real, campaignSpent: real, campaignCap: real,
                                reserve: real,
                                globalEnv: Env, campaignEnv: Env) returns (d: Decision)
    requires OthersEnv(globalEnv, me) && OthersEnv(campaignEnv, me)
    requires caps(GlobalScope()) == BudgetSlotCount(globalCap, reserve)
    requires campaign.Some? ==> caps(CampaignScope(campaign.value)) == BudgetSlotCount(campaignCap, reserve)
    modifies store
    ensures var q := Request(bindingKey, campaign, ImplicitBudgetUsed(globalSpent, reserve),
                             ImplicitBudgetUsed(campaignSpent, reserve));
            var (after, decision) := Reserve(caps, old(store.Abs()), me, q, globalEnv, campaignEnv);
            store.Abs() == after && d == decision
  {
    hide OthersEnv, BudgetClaim, BudgetSlotCount, ImplicitBudgetUsed, Update;
    var globalSlot := store.ClaimBudgetSlot(caps, me, GlobalScope(), globalSpent, globalCap, reserve,
                                            Some(bindingKey), globalEnv);
    if globalSlot.None? {
      return Decision(false, GlobalBudgetCap, None);
    }
    var campaignSlot: Option<nat> := None;
    if campaign.Some? {
      campaignSlot := store.ClaimBudgetSlot(caps, me, CampaignScope(campaign.value), campaignSpent, campaignCap,
                                            reserve, Some(bindingKey), campaignEnv);
      if campaignSlot.None? {
        var _ := store.ReleaseBudgetSlot(globalSlot.value);
        return Decision(false, CampaignBudgetCap, None);
      }
    }
    return Decision(true, Admitted, Some(Reservation(globalSlot.value, campaignSlot)));
  }

  method ReleaseBenchmarkBudgetReservation(store: Store, r: Reservation)
    modifies store
    ensures store.Abs() == ReleaseReservation(old(store.Abs()), r)
  {
    var _ := store.ReleaseBudgetSlot(r.globalSlot);
    if r.campaignSlot.Some? {
      var _ := store.ReleaseBudgetSlot(r.campaignSlot.value);
    }
  }

  // ------------------------------------------------ nothing held after a denial

  ghost predicate NoneLive(st: State, ids: set<nat>) {
    forall k :: k in st.rows && st.rows[k].id in ids ==> st.rows[k].released
  }

  lemma ReleaseEnds(st: State, id: nat, me: nat, n: nat)
    requires Mine(st, me, n) <= {id}
    ensures NoneLive(Release(st, id), Mine(st, me, n)) && Mine(Release(st, id), me, n) == Mine(st, me, n)
  {
  }

  // Whatever other sessions do meanwhile, a denied call holds no live row among those it wrote;
  // an admitted call wrote exactly the rows its reservation names, and releasing that reservation
  // leaves none of them live.
  lemma DeniedReservationHoldsNothing(caps: Caps, st: State, me: nat, q: Request, global: Env, campaign: Env)
    requires OthersEnv(global, me) && OthersEnv(campaign, me)
    ensures var (after, d) := Reserve(caps, st, me, q, global, campaign);
            var mine := Mine(after, me, |st.log|);
            && (!d.allowed ==> d.reservation.None? && NoneLive(after, mine))
            && (d.allowed ==>
                  && d.reservation.Some?
                  && (d.reservation.value.campaignSlot.Some? <==> q.campaign.Some?)
                  && mine == {d.reservation.value.globalSlot} +
                             (if q.campaign.Some? then {d.reservation.value.campaignSlot.value} else {})
                  && NoneLive(ReleaseReservation(after, d.reservation.value), mine))
  {
    hide BudgetClaim, Mine, OthersEnv;
    var n := |st.log|;
    NothingMineYet(st, me);
    BudgetClaimAddsMine(caps, st, me, GlobalScope(), q.globalCharged, Some(q.bindingKey), global, n);
    var (st1, o1) := BudgetClaim(caps, st, me, GlobalScope(), q.globalCharged, Some(q.bindingKey), global);
    if o1.Claimed? && q.campaign.Some? {
      var s := CampaignScope(q.campaign.value);
      BudgetClaimAddsMine(caps, st1, me, s, q.campaignCharged, Some(q.bindingKey), campaign, n);
      var (st2, o2) := BudgetClaim(caps, st1, me, s, q.campaignCharged, Some(q.bindingKey), campaign);
      if !o2.Claimed? {
        ReleaseEnds(st2, o1.id, me, n);
      }
    }
  }

  // ------------------------------------------------ the saga is a run of the protocol

  function BudgetTrace(caps: Caps, st: State, me: nat, s: Scope, charged: nat, key: string, env: Env): seq<Step>
    requires OthersEnv(env, me)
  {
    if caps(s) == 0 then []
    else [ReleaseBinding(key, Some(s))]
         + ClaimTrace(caps, Reclaim(caps, st, s, Some(key)), me, s, MinNat(charged, caps(s)), Some(key), env, 0)
  }

  lemma BudgetTraceIsRun(caps: Caps, st: State, me: nat, s: Scope, charged: nat, key: string, env: Env)
    requires OthersEnv(env, me)
    ensures Run(caps, st, BudgetTrace(caps, st, me, s, charged, key, env))
            == BudgetClaim(caps, st, me, s, charged, Some(key), env).0
  {
    if caps(s) > 0 {
      hide Run, ClaimRounds, ClaimTrace, Next, OthersEnv;
      var reclaim := ReleaseBinding(key, Some(s));
      var st0 := Reclaim(caps, st, s, Some(key));
      RunOne(caps, st, [], reclaim);
      assert [] + [reclaim] == [reclaim];
      RunNone(caps, st);
      RunConcat(caps, st, [reclaim], ClaimTrace(caps, st0, me, s, MinNat(charged, caps(s)), Some(key), env, 0));
      ClaimIsRun(caps, st0, me, s, MinNat(charged, caps(s)), Some(key), env, 0);
    }
  }

  lemma RunNone(caps: Caps, st: State)
    ensures Run(caps, st, []) == st
  {
  }

  function ReserveTrace(caps: Caps, st: State, me: nat, q: Request, global: Env, campaign: Env): seq<Step>
    requires OthersEnv(global, me) && OthersEnv(campaign, me)
  {
    var (st1, o1) := BudgetClaim(caps, st, me, GlobalScope(), q.globalCharged, Some(q.bindingKey), global);
    var t1 := BudgetTrace(caps, st, me, GlobalScope(), q.globalCharged, q.bindingKey, global);
    if !o1.Claimed? || q.campaign.None? then t1
    else
      var s := CampaignScope(q.campaign.value);
      var o2 := BudgetClaim(caps, st1, me, s, q.campaignCharged, Some(q.bindingKey), campaign).1;
      var t2 := t1 + BudgetTrace(caps, st1, me, s, q.campaignCharged, q.bindingKey, campaign);
      if o2.Claimed? then t2 else t2 + [ReleaseId(o1.id)]
  }

  // A reservation, denied or not, is a run of the slot protocol; it deletes nothing, so with
  // others that delete only live rows both caps hold after it.
  lemma ReserveKeepsCaps(caps: Caps, low: Caps, st: State, me: nat, q: Request, global: Env, campaign: Env, s: Scope)
    requires OthersEnv(global, me) && OthersEnv(campaign, me)
    requires Inv(caps, low, st)
    requires LegalRun(caps, st, ReserveTrace(caps, st, me, q, global, campaign))
    requires ReadsAtLeast(ReserveTrace(caps, st, me, q, global, campaign), low)
    ensures var after := Reserve(caps, st, me, q, global, campaign).0;
            Inv(caps, low, after) && |Live(after.rows, s)| <= caps(s)
  {
    ReserveIsRun(caps, st, me, q, global, campaign);
    RunKeepsInv(caps, low, st, ReserveTrace(caps, st, me, q, global, campaign));
    InvBoundsLive(caps, low, Reserve(caps, st, me, q, global, campaign).0, s);
  }

  lemma ReserveIsRun(caps: Caps, st: State, me: nat, q: Request, global: Env, campaign: Env)
    requires OthersEnv(global, me) && OthersEnv(campaign, me)
    ensures Run(caps, st, ReserveTrace(caps, st, me, q, global, campaign))
            == Reserve(caps, st, me, q, global, campaign).0
  {
    hide Run, BudgetClaim, BudgetTrace, OthersEnv;
    var key := q.bindingKey;
    var (st1, o1) := BudgetClaim(caps, st, me, GlobalScope(), q.globalCharged, Some(key), global);
    BudgetTraceIsRun(caps, st, me, GlobalScope(), q.globalCharged, key, global);
    if o1.Claimed? && q.campaign.Some? {
      var s := CampaignScope(q.campaign.value);
      BudgetTraceIsRun(caps, st1, me, s, q.campaignCharged, key, campaign);
      var t1 := BudgetTrace(caps, st, me, GlobalScope(), q.globalCharged, key, global);
      var t2 := BudgetTrace(caps, st1, me, s, q.campaignCharged, key, campaign);
      RunConcat(caps, st, t1, t2);
      RunOne(caps, st, t1 + t2, ReleaseId(o1.id));
    }
  }

  // ------------------------------------------------ an admitted game holds its slots

  // The environment never releases by this binding key.
  ghost predicate LeavesKey(env: Env, key: string) {
    forall k :: KeyUnused(env(k), key)
  }

  predicate KeyUnused(steps: seq<Step>, key: string) {
    forall i :: 0 <= i < |steps| && steps[i].ReleaseBinding? ==> steps[i].key != key
  }

  lemma {:induction false} ClaimLeavesKey(caps: Caps, st: State, me: nat, s: Scope, used: nat, b: Option<string>,
                                          env: Env, r: nat, key: string)
    requires OthersEnv(env, me) && LeavesKey(env, key)
    ensures KeyUnused(ClaimTrace(caps, st, me, s, used, b, env, r), key)
    decreases caps(s) + 1 - r
  {
    hide Run, ReadStep, InsertStep, Full, KeyUnused;
    if r <= caps(s) {
      assert KeyUnused(env(2 * r), key) && KeyUnused(env(2 * r + 1), key);
      var upToRead := env(2 * r) + [Read(me, s, used, b)];
      KeyUnusedConcat(env(2 * r), [Read(me, s, used, b)], key);
      KeyUnusedConcat(env(2 * r + 1), [Insert(me)], key);
      KeyUnusedConcat(upToRead, env(2 * r + 1) + [Insert(me)], key);
      OwnStepsLeaveKey(me, s, used, b, key);
      OthersKeepMyPending(caps, AfterRead(caps, st, me, s, used, b, env, r), env(2 * r + 1), me);
      var st4 := AfterRound(caps, st, me, s, used, b, env, r);
      ClaimLeavesKey(caps, st4, me, s, used, b, env, r + 1, key);
      KeyUnusedConcat(upToRead + (env(2 * r + 1) + [Insert(me)]),
                      ClaimTrace(caps, st4, me, s, used, b, env, r + 1), key);
    } else {
      NoStepsLeaveKey(key);
    }
  }

  lemma KeyUnusedConcat(a: seq<Step>, b: seq<Step>, key: string)
    ensures KeyUnused(a, key) && KeyUnused(b, key) ==> KeyUnused(a + b, key)
  {
  }

  lemma OwnStepsLeaveKey(me: nat, s: Scope, used: nat, b: Option<string>, key: string)
    ensures KeyUnused([Read(me, s, used, b)], key) && KeyUnused([Insert(me)], key)
  {
  }

  lemma NoStepsLeaveKey(key: string)
    ensures KeyUnused([], key)
  {
  }

  // Our own reclaim in the campaign scope spares the slot just claimed in the global scope.
  lemma CampaignClaimSpares(caps: Caps, st: State, me: nat, campaign: string, charged: nat, key: string, env: Env)
    requires OthersEnv(env, me) && LeavesKey(env, key)
    ensures AllSpare(BudgetTrace(caps, st, me, CampaignScope(campaign), charged, key, env), GlobalScope(), Some(key))
  {
    var s := CampaignScope(campaign);
    ScopesDiffer(campaign);
    if caps(s) > 0 {
      var st0 := Reclaim(caps, st, s, Some(key));
      ClaimLeavesKey(caps, st0, me, s, MinNat(charged, caps(s)), Some(key), env, 0, key);
      hide ClaimTrace, Reclaim;
    }
  }

  lemma ScopesDiffer(campaign: string)
    ensures CampaignScope(campaign) != GlobalScope()
  {
    assert ("campaign:" + campaign)[0] == 'c';
  }

  // If the others touch, by id, only rows of their own and release only by keys of their own, an
  // admitted game ends with its slots live, bound to its key and in their scopes.
  lemma AdmittedGameHoldsItsSlots(caps: Caps, st: State, me: nat, q: Request, global: Env, campaign: Env)
    requires OthersEnv(global, me) && OthersEnv(campaign, me) && LeavesKey(campaign, q.bindingKey)
    requires Reserve(caps, st, me, q, global, campaign).1.allowed
    requires RespectfulRun(caps, st, ReserveTrace(caps, st, me, q, global, campaign), me)
    ensures var (after, d) := Reserve(caps, st, me, q, global, campaign);
            && d.reservation.Some?
            && Held(after, GlobalScope(), d.reservation.value.globalSlot, Some(q.bindingKey))
            && (q.campaign.Some? ==>
                  && d.reservation.value.campaignSlot.Some?
                  && Held(after, CampaignScope(q.campaign.value), d.reservation.value.campaignSlot.value,
                          Some(q.bindingKey)))
  {
    hide Run, BudgetClaim, BudgetTrace, OthersEnv, LeavesKey, Held, RespectfulRun, AllSpare;
    var key := q.bindingKey;
    var (st1, o1) := BudgetClaim(caps, st, me, GlobalScope(), q.globalCharged, Some(key), global);
    BudgetClaimHolds(caps, st, me, GlobalScope(), q.globalCharged, Some(key), global);
    if q.campaign.Some? {
      var s := CampaignScope(q.campaign.value);
      var t1 := BudgetTrace(caps, st, me, GlobalScope(), q.globalCharged, key, global);
      var t2 := BudgetTrace(caps, st1, me, s, q.campaignCharged, key, campaign);
      BudgetTraceIsRun(caps, st, me, GlobalScope(), q.globalCharged, key, global);
      BudgetTraceIsRun(caps, st1, me, s, q.campaignCharged, key, campaign);
      RespectfulConcat(caps, st, t1, t2, me);
      BudgetClaimHolds(caps, st1, me, s, q.campaignCharged, Some(key), campaign);
      CampaignClaimSpares(caps, st1, me, q.campaign.value, q.campaignCharged, key, campaign);
      RunKeepsHeld(caps, st1, t2, me, GlobalScope(), o1.id, Some(key));
    }
  }

  // ------------------------------------------------ why a game is denied

  // Whatever others do, a denial names the scope of the claim that failed; that scope was full when
  // the claim ended, or the claim lost every race in it.
  lemma DenialHasItsReason(caps: Caps, st: State, me: nat, q: Request, global: Env, campaign: Env)
    requires OthersEnv(global, me) && OthersEnv(campaign, me)
    ensures var (st1, o1) := BudgetClaim(caps, st, me, GlobalScope(), q.globalCharged, Some(q.bindingKey), global);
            var d := Reserve(caps, st, me, q, global, campaign).1;
            && (d.allowed <==> d.reason == Admitted)
            && (d.reason == GlobalBudgetCap <==> Refused(caps, st1, o1, GlobalScope(), q.globalCharged))
            && (d.reason == CampaignBudgetCap ==>
                  && q.campaign.Some?
                  && var s := CampaignScope(q.campaign.value);
                  && var (st2, o2) := BudgetClaim(caps, st1, me, s, q.campaignCharged, Some(q.bindingKey), campaign);
                  && Refused(caps, st2, o2, s, q.campaignCharged))
  {
    hide BudgetClaim, OthersEnv, Refused;
    BudgetClaimRefusal(caps, st, me, GlobalScope(), q.globalCharged, Some(q.bindingKey), global);
    if q.campaign.Some? {
      var st1 := BudgetClaim(caps, st, me, GlobalScope(), q.globalCharged, Some(q.bindingKey), global).0;
      BudgetClaimRefusal(caps, st1, me, CampaignScope(q.campaign.value), q.campaignCharged, Some(q.bindingKey),
                         campaign);
    }
  }

  // ------------------------------------------------ undisturbed

  // The rows the saga finds in scope s once the game's own older slots there are released.
  function Found(caps: Caps, rows: Rows, s: Scope, q: Request): Rows {
    Reclaimed(caps, rows, s, Some(q.bindingKey))
  }

  predicate GlobalRoom(caps: Caps, rows: Rows, q: Request) {
    var s := BudgetScope("global:benchmark");
    HasRoom(caps, Found(caps, rows, s, q), s, q.globalCharged)
  }

  predicate CampaignRoom(caps: Caps, rows: Rows, q: Request) {
    q.campaign.Some? ==>
      var s := BudgetScope("campaign:" + q.campaign.value);
      HasRoom(caps, Found(caps, rows, s, q), s, q.campaignCharged)
  }

  // The live slots a scope of the saga ends with: those found, and one more if the game got one.
  ghost predicate EndsWith(caps: Caps, before: Rows, after: Rows, s: Scope, q: Request, more: nat) {
    |Live(after, s)| == |Live(Found(caps, before, s, q), s)| + more
  }

  // Reclaiming in one scope changes no live slot of another.
  lemma ReclaimElsewhere(caps: Caps, rows: Rows, s: Scope, q: Request, t: Scope)
    requires t != s
    ensures Live(Found(caps, rows, s, q), t) == Live(rows, t)
  {
    var found := Found(caps, rows, s, q);
    forall i ensures i in Live(found, t) <==> i in Live(rows, t) {
      if Key(t, i) in rows { assert found[Key(t, i)] == rows[Key(t, i)]; }
    }
  }

  // Live slots of s depend on the rows of s only.
  lemma SameRowsSameFound(caps: Caps, a: Rows, b: Rows, s: Scope, q: Request)
    requires SameIn(a, b, s)
    ensures Live(Found(caps, a, s, q), s) == Live(Found(caps, b, s, q), s)
  {
    forall i ensures i in Live(Found(caps, a, s, q), s) <==> i in Live(Found(caps, b, s, q), s) {
      var k := Key(s, i);
      if k in a { assert a[k] == b[k] && k.scope == s; }
      if k in b { assert k.scope == s && k in a; }
    }
  }

  // The global claim leaves the campaign's rows as they were.
  lemma GlobalClaimElsewhere(caps: Caps, rows: Rows, id: nat, q: Request, used: nat, t: Scope)
    requires t != GlobalScope() && FreeKey(Found(caps, rows, GlobalScope(), q), GlobalScope(), used)
                                   !in Found(caps, rows, GlobalScope(), q)
    ensures var mid := NewSlot(Found(caps, rows, GlobalScope(), q), id, GlobalScope(), used, Some(q.bindingKey));
            SameIn(mid, rows, t)
  {
  }

  // Releasing the fresh row just inserted into s gives back the live slots of before.
  lemma ReleaseFresh(rows: Rows, s: Scope, used: nat, id: nat, b: Option<string>, later: Rows)
    requires FreeKey(rows, s, used) !in rows && forall k :: k in rows ==> rows[k].id < id
    requires SameIn(later, NewSlot(rows, id, s, used, b), s)
    ensures Live(Update(ReleaseId(id), later), s) == Live(rows, s)
  {
    var k0 := FreeKey(rows, s, used);
    forall i ensures i in Live(Update(ReleaseId(id), later), s) <==> i in Live(rows, s) {
      var k := Key(s, i);
      if k in rows { assert k != k0 && k in later && later[k] == rows[k]; }
      if k in later { assert k == k0 || k in rows; }
    }
  }

  // Without interference a game is admitted exactly when both scopes have room besides its own
  // older slots, which it gives up in any case; an admitted game holds one slot more in each scope
  // and a denied one none in either.
  lemma UndisturbedReservation(caps: Caps, st: State, me: nat, q: Request)
    requires IdsOk(st) && OthersEnv(Quiet(), me)
    ensures var (after, d) := Reserve(caps, st, me, q, Quiet(), Quiet());
            var more := if d.allowed then 1 else 0;
            && (d.allowed <==> GlobalRoom(caps, st.rows, q) && CampaignRoom(caps, st.rows, q))
            && d.reason == (if !GlobalRoom(caps, st.rows, q) then GlobalBudgetCap
                            else if !CampaignRoom(caps, st.rows, q) then CampaignBudgetCap
                            else Admitted)
            && EndsWith(caps, st.rows, after.rows, BudgetScope("global:benchmark"), q, more)
            && (q.campaign.Some? && GlobalRoom(caps, st.rows, q) ==>
                  EndsWith(caps, st.rows, after.rows, BudgetScope("campaign:" + q.campaign.value), q, more))
  {
    hide Live, Reclaimed, OthersEnv, NewSlot, FreeKey, BudgetClaim, Update, IdsOk;
    var g, key := GlobalScope(), Some(q.bindingKey);
    QuietBudgetClaim(caps, st, me, g, q.globalCharged, key);
    if GlobalRoom(caps, st.rows, q) {
      var used := MinNat(q.globalCharged, caps(g));
      NewSlotIsOneLiveRow(Found(caps, st.rows, g, q), st.nextId, g, used, key);
      if q.campaign.Some? { UndisturbedCampaign(caps, st, me, q); }
    }
  }

  lemma UndisturbedCampaign(caps: Caps, st: State, me: nat, q: Request)
    requires IdsOk(st) && OthersEnv(Quiet(), me) && q.campaign.Some? && GlobalRoom(caps, st.rows, q)
    ensures var (after, d) := Reserve(caps, st, me, q, Quiet(), Quiet());
            var more := if d.allowed then 1 else 0;
            && (d.allowed <==> CampaignRoom(caps, st.rows, q))
            && d.reason == (if d.allowed then Admitted else CampaignBudgetCap)
            && EndsWith(caps, st.rows, after.rows, GlobalScope(), q, more)
            && EndsWith(caps, st.rows, after.rows, CampaignScope(q.campaign.value), q, more)
  {
    hide Live, Reclaimed, OthersEnv, NewSlot, FreeKey, BudgetClaim, Update, IdsOk;
    var g, c, key := GlobalScope(), CampaignScope(q.campaign.value), Some(q.bindingKey);
    ScopesDiffer(q.campaign.value);
    QuietBudgetClaim(caps, st, me, g, q.globalCharged, key);
    var (st1, o1) := BudgetClaim(caps, st, me, g, q.globalCharged, key, Quiet());
    var found := Found(caps, st.rows, g, q);
    var used := MinNat(q.globalCharged, caps(g));
    NewSlotIsOneLiveRow(found, st.nextId, g, used, key);
    GlobalClaimElsewhere(caps, st.rows, st.nextId, q, used, c);
    SameRowsSameFound(caps, st1.rows, st.rows, c, q);
    QuietBudgetClaim(caps, st1, me, c, q.campaignCharged, key);
    ReclaimElsewhere(caps, st1.rows, c, q, g);
    var found2 := Found(caps, st1.rows, c, q);
    if CampaignRoom(caps, st.rows, q) {
      NewSlotIsOneLiveRow(found2, st1.nextId, c, MinNat(q.campaignCharged, caps(c)), key);
    } else {
      FoundElsewhere(caps, st1.rows, c, q, g);
      FreshIds(caps, st, g, q);
      ReleaseFresh(found, g, used, st.nextId, key, found2);
      ReleaseNoneOf(caps, st, g, c, q, used, found2);
    }
  }

  lemma FoundElsewhere(caps: Caps, rows: Rows, s: Scope, q: Request, t: Scope)
    requires t != s
    ensures SameIn(Found(caps, rows, s, q), rows, t)
  {
  }

  lemma FreshIds(caps: Caps, st: State, s: Scope, q: Request)
    requires IdsOk(st)
    ensures forall k :: k in Found(caps, st.rows, s, q) ==> Found(caps, st.rows, s, q)[k].id < st.nextId
  {
  }

  // The compensating release touches no row of the campaign's scope.
  lemma ReleaseNoneOf(caps: Caps, st: State, g: Scope, c: Scope, q: Request, used: nat, found2: Rows)
    requires IdsOk(st) && g == GlobalScope() && c != g
    requires FreeKey(Found(caps, st.rows, g, q), g, used) !in Found(caps, st.rows, g, q)
    requires found2 == Found(caps, NewSlot(Found(caps, st.rows, g, q), st.nextId, g, used, Some(q.bindingKey)), c, q)
    ensures Live(Update(ReleaseId(st.nextId), found2), c) == Live(found2, c)
  {
    FreshIds(caps, st, g, q);
    var after := Update(ReleaseId(st.nextId), found2);
    forall i ensures i in Live(after, c) <==> i in Live(found2, c) {
      var k := Key(c, i);
      if k in found2 { assert found2[k].id < st.nextId; }
    }
  }

  // Two campaigns never share a scope, nor does one share the global scope.
  lemma CampaignsApart(a: string, b: string)
    ensures CampaignScope(a) == CampaignScope(b) <==> a == b
    ensures CampaignScope(a) != GlobalScope()
  {
    ScopesDiffer(a);
    assert ("campaign:" + a)[|"campaign:"|..] == a && ("campaign:" + b)[|"campaign:"|..] == b;
  }

  // Without interference a reservation leaves the rows of every other campaign as they were.
  lemma OtherCampaignsUntouched(caps: Caps, st: State, me: nat, q: Request, other: string)
    requires IdsOk(st) && OthersEnv(Quiet(), me) && q.campaign != Some(other)
    ensures SameIn(Reserve(caps, st, me, q, Quiet(), Quiet()).0.rows, st.rows, BudgetScope("campaign:" + other))
  {
    hide Live, Reclaimed, OthersEnv, NewSlot, FreeKey, BudgetClaim, Update, IdsOk, SameIn;
    var g, t, key := GlobalScope(), CampaignScope(other), Some(q.bindingKey);
    CampaignsApart(other, other);
    ClaimElsewhere(caps, st, me, g, q.globalCharged, q, t);
    var (st1, o1) := BudgetClaim(caps, st, me, g, q.globalCharged, key, Quiet());
    if o1.Claimed? && q.campaign.Some? {
      var c := CampaignScope(q.campaign.value);
      CampaignsApart(q.campaign.value, other);
      ClaimElsewhere(caps, st1, me, c, q.campaignCharged, q, t);
      var (st2, o2) := BudgetClaim(caps, st1, me, c, q.campaignCharged, key, Quiet());
      SameInTwice(st2.rows, st1.rows, st.rows, t);
      QuietBudgetClaim(caps, st, me, g, q.globalCharged, key);
      ReleaseElsewhere(st2.rows, st, t);
    }
  }

  lemma SameInTwice(a: Rows, b: Rows, c: Rows, s: Scope)
    requires SameIn(a, b, s) && SameIn(b, c, s)
    ensures SameIn(a, c, s)
  {
  }

  lemma ClaimElsewhere(caps: Caps, st: State, me: nat, s: Scope, charged: nat, q: Request, t: Scope)
    requires OthersEnv(Quiet(), me) && t != s
    ensures SameIn(BudgetClaim(caps, st, me, s, charged, Some(q.bindingKey), Quiet()).0.rows, st.rows, t)
  {
    hide BudgetClaim, OthersEnv, Live;
    QuietBudgetClaim(caps, st, me, s, charged, Some(q.bindingKey));
    FoundElsewhere(caps, st.rows, s, q, t);
  }

  // The compensating release names a row that was not there before.
  lemma ReleaseElsewhere(later: Rows, st: State, t: Scope)
    requires SameIn(later, st.rows, t) && IdsOk(st)
    ensures SameIn(Update(ReleaseId(st.nextId), later), st.rows, t)
  {
  }
}
