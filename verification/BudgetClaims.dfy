// What both admission sagas need to know about one claim of the shared table.
module BudgetClaims {
  import opened Options
  import opened Utils
  import opened Slots
  import opened SlotBudget
  import opened SlotClaims
  import opened SlotStore
  import opened SlotOwnership

  // ------------------------------------------------ undisturbed

  function Quiet(): Env { (k: nat) => [] }

  // The rows a claim finds once it has released the live rows of its own binding key.
  function Reclaimed(caps: Caps, rows: Rows, s: Scope, b: Option<string>): Rows {
    if caps(s) > 0 && b.Some? then Update(ReleaseBinding(b.value, Some(s)), rows) else rows
  }

  function FreeKey(rows: Rows, s: Scope, used: nat): Key {
    Key(s, NextFree(used, Physical(rows, s)))
  }

  function NewSlot(rows: Rows, id: nat, s: Scope, used: nat, b: Option<string>): Rows {
    rows[FreeKey(rows, s, used) := Row(id, b, None, None, false)]
  }

  predicate HasRoom(caps: Caps, rows: Rows, s: Scope, charged: nat) {
    MinNat(charged, caps(s)) + |Live(rows, s)| < caps(s)
  }

  // A claim with room takes the lowest free index under a fresh id; one without leaves the rows.
  lemma QuietBudgetClaim(caps: Caps, st: State, me: nat, s: Scope, charged: nat, b: Option<string>)
    requires OthersEnv(Quiet(), me)
    ensures var (after, o) := BudgetClaim(caps, st, me, s, charged, b, Quiet());
            var rows := Reclaimed(caps, st.rows, s, b);
            if HasRoom(caps, rows, s, charged)
            then && o == Claimed(st.nextId)
                 && after.rows == NewSlot(rows, st.nextId, s, MinNat(charged, caps(s)), b)
                 && after.nextId == st.nextId + 1
                 && FreeKey(rows, s, MinNat(charged, caps(s))) !in rows
            else o == Exhausted && after.rows == rows && after.nextId == st.nextId
  {
    if caps(s) > 0 {
      var used := MinNat(charged, caps(s));
      var st0 := Reclaim(caps, st, s, b);
      FreeKeyAbsent(st0.rows, s, used);
      RoundOutcome(caps, st0, me, s, used, b, Quiet(), 0);
      hide Live, Physical, NextFree, Next, ClaimRounds;
    }
  }

  // The two tables have the same rows in scope s.
  ghost predicate SameIn(a: Rows, b: Rows, s: Scope) {
    forall k: Key :: k.scope == s ==> (k in a <==> k in b) && (k in a ==> a[k] == b[k])
  }

  // What a claim decides, and the row it adds, depend on the rows of its scope only.
  lemma SameClaim(a: Rows, b: Rows, id: nat, s: Scope, used: nat, key: Option<string>) returns (k: Key, row: Row)
    requires SameIn(a, b, s) && FreeKey(a, s, used) !in a
    ensures |Live(a, s)| == |Live(b, s)|
    ensures k.scope == s && k !in a && k !in b
    ensures NewSlot(a, id, s, used, key) == a[k := row] && NewSlot(b, id, s, used, key) == b[k := row]
  {
    SameLive(a, b, s);
    SamePhysical(a, b, s);
    k, row := FreeKey(a, s, used), Row(id, key, None, None, false);
    assert k.scope == s;
  }

  lemma SameLive(a: Rows, b: Rows, s: Scope)
    requires SameIn(a, b, s)
    ensures Live(a, s) == Live(b, s)
  {
    forall i ensures i in Live(a, s) <==> i in Live(b, s) {
      assert Key(s, i).scope == s;
    }
  }

  lemma SamePhysical(a: Rows, b: Rows, s: Scope)
    requires SameIn(a, b, s)
    ensures Physical(a, s) == Physical(b, s)
  {
    forall i ensures i in Physical(a, s) <==> i in Physical(b, s) {
      assert Key(s, i).scope == s;
    }
  }

  // A new slot in one scope is one more live row there and nothing anywhere else.
  lemma NewSlotIsOneLiveRow(rows: Rows, id: nat, s: Scope, used: nat, b: Option<string>)
    requires FreeKey(rows, s, used) !in rows
    ensures |Live(NewSlot(rows, id, s, used, b), s)| == |Live(rows, s)| + 1
    ensures forall t :: t != s ==> Live(NewSlot(rows, id, s, used, b), t) == Live(rows, t)
  {
    var row := Row(id, b, None, None, false);
    var k := FreeKey(rows, s, used);
    LiveAfterInsert(rows, s, k.index, row);
    forall t | t != s ensures Live(rows[k := row], t) == Live(rows, t) {
      OtherScopesSame(rows, k, row, t);
    }
  }

  lemma OtherScopesSame(rows: Rows, k: Key, row: Row, t: Scope)
    requires k.scope != t
    ensures Live(rows[k := row], t) == Live(rows, t)
  {
    var after := rows[k := row];
    forall j ensures j in Live(after, t) <==> j in Live(rows, t) {
      if j in Live(after, t) { assert Key(t, j) in rows && !rows[Key(t, j)].released; }
      if j in Live(rows, t) { assert Key(t, j) in after && !after[Key(t, j)].released; }
    }
  }

  // ------------------------------------------------ with interference

  // A claim writes exactly the row it returns, and none when it is denied.
  lemma BudgetClaimAddsMine(caps: Caps, st: State, me: nat, s: Scope, charged: nat, b: Option<string>, env: Env, n: nat)
    requires OthersEnv(env, me) && n <= |st.log|
    ensures var (after, o) := BudgetClaim(caps, st, me, s, charged, b, env);
            && n <= |after.log|
            && Mine(after, me, n) == Mine(st, me, n) + (if o.Claimed? then {o.id} else {})
  {
    if caps(s) > 0 {
      var st0 := Reclaim(caps, st, s, b);
      SameLogSameMine(st, st0, me, n);
      ClaimAddsOne(caps, st0, me, s, MinNat(charged, caps(s)), b, env, 0, n);
    }
  }

  // A successful claim ends with its row live and unbound in its scope.
  lemma BudgetClaimHolds(caps: Caps, st: State, me: nat, s: Scope, charged: nat, b: Option<string>, env: Env)
    requires OthersEnv(env, me)
    ensures var (after, o) := BudgetClaim(caps, st, me, s, charged, b, env);
            o.Claimed? ==> Held(after, s, o.id, b) && Wrote(after, me, o.id)
  {
    if caps(s) > 0 {
      var st0 := Reclaim(caps, st, s, b);
      ClaimOutcome(caps, st0, me, s, MinNat(charged, caps(s)), b, env, 0);
      var (after, o) := ClaimRounds(caps, st0, me, s, MinNat(charged, caps(s)), b, env, 0);
      hide Run, Live, ClaimRounds, NextFree, OthersEnv, Reclaim;
      if o.Claimed? { NewRowIsHeld(after, me, s, b, o.id); }
    }
  }

  // The claim got nothing: the scope was full when it ended, or it lost every race.
  predicate Refused(caps: Caps, after: State, o: Outcome, s: Scope, charged: nat) {
    o == LostEveryRace || (o == Exhausted && Full(caps, after.rows, s, MinNat(charged, caps(s))))
  }

  lemma BudgetClaimRefusal(caps: Caps, st: State, me: nat, s: Scope, charged: nat, b: Option<string>, env: Env)
    requires OthersEnv(env, me)
    ensures var (after, o) := BudgetClaim(caps, st, me, s, charged, b, env);
            !o.Claimed? <==> Refused(caps, after, o, s, charged)
  {
    if caps(s) > 0 {
      var st0 := Reclaim(caps, st, s, b);
      ClaimOutcome(caps, st0, me, s, MinNat(charged, caps(s)), b, env, 0);
      hide Run, Live, ClaimRounds, OthersEnv, Reclaim;
    }
  }

  lemma NewRowIsHeld(st: State, me: nat, s: Scope, b: Option<string>, id: nat)
    requires NewRow(st, me, s, b, id)
    ensures Held(st, s, id, b) && Wrote(st, me, id)
  {
    var last := st.log[|st.log| - 1];
    assert last in st.log && last.key in st.rows;
  }
}
