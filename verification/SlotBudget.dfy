// What the slot protocol means in dollars, when exactly the "charged + held" promise of
// the reservation docstrings is kept, and what the unique index buys.
module SlotBudget {
  import opened Options
  import opened Utils
  import opened Slots

  // floor(budget / reserve), 0 when either is non-positive.
  function BudgetSlotCount(budget: real, reserve: real): nat {
    if budget <= 0.0 || reserve <= 0.0 then 0
    else
      QuotientPositive(budget, reserve);
      (budget / reserve).Floor
  }

  // ceil(spent / reserve), 0 when either is non-positive.
  function ImplicitBudgetUsed(spent: real, reserve: real): nat {
    if spent <= 0.0 || reserve <= 0.0 then 0
    else
      QuotientPositive(spent, reserve);
      var whole := (spent / reserve).Floor;
      if whole as real == spent / reserve then whole else whole + 1
  }

  // The slot count is the greatest number of whole reserves inside the budget, and none where there
  // is no budget or no reserve.
  lemma SlotCountIsFloor(budget: real, reserve: real)
    ensures var n := BudgetSlotCount(budget, reserve);
            if budget > 0.0 && reserve > 0.0 then n as real * reserve <= budget < (n as real + 1.0) * reserve
            else n == 0
  {
    if budget > 0.0 && reserve > 0.0 {
      QuotientPositive(budget, reserve);
      var a, q := BudgetSlotCount(budget, reserve) as real, budget / reserve;
      assert a <= q < a + 1.0;
      ScaledBracket(a, q, a + 1.0, reserve, budget);
    }
  }

  // Scaling lo <= q = total / b < hi back up by b.
  lemma ScaledBracket(lo: real, q: real, hi: real, b: real, total: real)
    requires b > 0.0 && q == total / b
    ensures lo <= q ==> lo * b <= total
    ensures lo < q ==> lo * b < total
    ensures q < hi ==> total < hi * b
    ensures q <= hi ==> total <= hi * b
  {
    assert q * b == total;
    Times(lo, q, b);
    Times(q, hi, b);
  }

  // The implicit use is the least number of whole reserves covering the spend: fail-closed.
  lemma ImplicitUseIsCeiling(spent: real, reserve: real)
    ensures var n := ImplicitBudgetUsed(spent, reserve);
            if spent > 0.0 && reserve > 0.0 then (n as real - 1.0) * reserve < spent <= n as real * reserve
            else n == 0
  {
    if spent > 0.0 && reserve > 0.0 {
      QuotientPositive(spent, reserve);
      var a, q := ImplicitBudgetUsed(spent, reserve) as real, spent / reserve;
      assert a - 1.0 < q <= a;
      ScaledBracket(a - 1.0, q, a, reserve, spent);
    }
  }

  // All claimers of scope s read the same charged spend.
  predicate ReadsCarry(steps: seq<Step>, s: Scope, used: nat) {
    forall i :: 0 <= i < |steps| && steps[i].Read? && steps[i].scope == s ==> steps[i].implicitUsed == used
  }

  lemma HeldSlotsFit(caps: Caps, steps: seq<Step>, s: Scope, charged: nat)
    requires LegalRun(caps, EMPTY, steps) && ReadsCarry(steps, s, MinNat(charged, caps(s)))
    ensures var held := |Live(Run(caps, EMPTY, steps).rows, s)|;
            held > 0 ==> charged + held <= caps(s)
  {
    var used := MinNat(charged, caps(s));
    var low := (t: Scope) => if t == s then used else 0;
    CapHoldsInEveryRun(caps, low, steps, s);
  }

  // With one charged spend per scope, charged money plus everything on hold fits the budget
  // in every reachable state, through the rounding of both slot counts.
  lemma HeldMoneyFitsBudget(caps: Caps, steps: seq<Step>, s: Scope, budget: real, spent: real, reserve: real)
    requires reserve > 0.0
    requires caps(s) == BudgetSlotCount(budget, reserve)
    requires LegalRun(caps, EMPTY, steps)
    requires ReadsCarry(steps, s, MinNat(ImplicitBudgetUsed(spent, reserve), caps(s)))
    ensures var held := |Live(Run(caps, EMPTY, steps).rows, s)|;
            held > 0 ==> spent + held as real * reserve <= budget
  {
    hide *;
    var charged := ImplicitBudgetUsed(spent, reserve);
    HeldSlotsFit(caps, steps, s, charged);
    var held := |Live(Run(caps, EMPTY, steps).rows, s)|;
    if held > 0 {
      PositiveCount(budget, reserve);
      SlotCountIsFloor(budget, reserve);
      ImplicitUseIsCeiling(spent, reserve);
      WholeSlotsFit(charged, held, caps(s), reserve, spent, budget);
    }
  }

  lemma PositiveCount(budget: real, reserve: real)
    ensures BudgetSlotCount(budget, reserve) > 0 ==> budget > 0.0 && reserve > 0.0
  {
  }

  lemma WholeSlotsFit(n: nat, held: nat, cap: nat, reserve: real, spent: real, budget: real)
    requires reserve > 0.0 && n + held <= cap
    requires spent <= n as real * reserve && cap as real * reserve <= budget
    ensures spent + held as real * reserve <= budget
  {
    var a, b, c := n as real, held as real, cap as real;
    TimesLe(a + b, c, reserve);
    assert (a + b) * reserve == a * reserve + b * reserve;
  }

  // ------------------------------------------------ when charged + held <= cap is kept

  // Every read of scope s carries the clamped slot count of one of the spends in `charged`.
  predicate ReadsCarryOneOf(steps: seq<Step>, s: Scope, cap: nat, charged: set<nat>) {
    forall i :: 0 <= i < |steps| && steps[i].Read? && steps[i].scope == s ==>
      exists u :: u in charged && steps[i].implicitUsed == MinNat(u, cap)
  }

  // What every claimer of s was promised: its charge and the live rows together fit the cap.
  ghost predicate ChargedPlusHeldFits(caps: Caps, s: Scope, steps: seq<Step>) {
    var live := Live(Run(caps, EMPTY, steps).rows, s);
    live != {} ==> forall i :: 0 <= i < |steps| && steps[i].Read? && steps[i].scope == s ==>
                     steps[i].implicitUsed + |live| <= caps(s)
  }

  ghost predicate PromiseKept(caps: Caps, s: Scope, charged: set<nat>) {
    forall steps | LegalRun(caps, EMPTY, steps) && ReadsCarryOneOf(steps, s, caps(s), charged) ::
      ChargedPlusHeldFits(caps, s, steps)
  }

  // The promise "live reservations + implicit use never exceed the slot count" is kept in
  // every run exactly when no two claimers of the scope see charges of different slot count.
  lemma PromiseKeptIff(caps: Caps, s: Scope, charged: set<nat>)
    ensures PromiseKept(caps, s, charged) <==>
            forall u, v :: u in charged && v in charged ==> MinNat(u, caps(s)) == MinNat(v, caps(s))
  {
    if forall u, v :: u in charged && v in charged ==> MinNat(u, caps(s)) == MinNat(v, caps(s)) {
      forall steps | LegalRun(caps, EMPTY, steps) && ReadsCarryOneOf(steps, s, caps(s), charged)
        ensures ChargedPlusHeldFits(caps, s, steps)
      {
        EqualChargesFit(caps, s, charged, steps);
      }
    } else {
      var u, v :| u in charged && v in charged && MinNat(u, caps(s)) < MinNat(v, caps(s));
      FillOverlooksCharge(caps, s, charged, u, v);
    }
  }

  lemma EqualChargesFit(caps: Caps, s: Scope, charged: set<nat>, steps: seq<Step>)
    requires LegalRun(caps, EMPTY, steps) && ReadsCarryOneOf(steps, s, caps(s), charged)
    requires forall u, v :: u in charged && v in charged ==> MinNat(u, caps(s)) == MinNat(v, caps(s))
    ensures ChargedPlusHeldFits(caps, s, steps)
  {
    if charged != {} {
      var u :| u in charged;
      var low := (t: Scope) => if t == s then MinNat(u, caps(s)) else 0;
      CapHoldsInEveryRun(caps, low, steps, s);
    }
  }

  // n claims one after another, each carrying `used` implicit slots.
  function Fill(s: Scope, used: nat, n: nat): seq<Step> {
    if n == 0 then [] else Fill(s, used, n - 1) + [Read(0, s, used, None), Insert(0)]
  }

  // An undisturbed claim below the cap adds exactly one live row, at the lowest free index.
  lemma ClaimOnce(caps: Caps, st: State, c: nat, s: Scope, used: nat, b: Option<string>)
    requires !Full(caps, st.rows, s, used)
    ensures var after := InsertStep(ReadStep(caps, st, c, s, used, b), c);
            var i := NextFree(used, Physical(st.rows, s));
            && Key(s, i) !in st.rows
            && after == State(st.rows[Key(s, i) := Row(st.nextId, b, None, None, false)], st.pending - {c},
                              st.nextId + 1, st.log + [Entry(Key(s, i), st.nextId, c)])
            && |Live(after.rows, s)| == |Live(st.rows, s)| + 1
  {
    var i := NextFree(used, Physical(st.rows, s));
    FreeKeyAbsent(st.rows, s, used);
    var mid := ReadStep(caps, st, c, s, used, b);
    assert mid.pending - {c} == st.pending - {c};
    LiveAfterInsert(st.rows, s, i, Row(st.nextId, b, None, None, false));
  }

  lemma FreeKeyAbsent(rows: Rows, s: Scope, used: nat)
    ensures Key(s, NextFree(used, Physical(rows, s))) !in rows
  {
    var k := Key(s, NextFree(used, Physical(rows, s)));
    assert k in rows ==> k.index in Physical(rows, s);
  }

  lemma LiveAfterInsert(rows: Rows, s: Scope, i: nat, row: Row)
    requires Key(s, i) !in rows && !row.released
    ensures Live(rows[Key(s, i) := row], s) == Live(rows, s) + {i}
    ensures i !in Live(rows, s)
  {
    var after := rows[Key(s, i) := row];
    forall j | j in Live(rows, s) + {i} ensures j in Live(after, s) {
      assert Key(s, j) in after && !after[Key(s, j)].released;
    }
  }

  lemma {:induction false} FillClaimsAll(caps: Caps, s: Scope, used: nat, n: nat)
    requires used + n <= caps(s)
    ensures |Live(Run(caps, EMPTY, Fill(s, used, n)).rows, s)| == n
    ensures LegalRun(caps, EMPTY, Fill(s, used, n))
  {
    if n == 0 {
      assert Live(EMPTY.rows, s) == {};
    } else {
      FillClaimsAll(caps, s, used, n - 1);
      var before := Run(caps, EMPTY, Fill(s, used, n - 1));
      var last := [Read(0, s, used, None), Insert(0)];
      RunConcat(caps, EMPTY, Fill(s, used, n - 1), last);
      LegalConcat(caps, EMPTY, Fill(s, used, n - 1), last);
      ClaimOnce(caps, before, 0, s, used, None);
      RunPair(caps, before, last[0], last[1]);
    }
  }

  lemma RunPair(caps: Caps, st: State, a: Step, b: Step)
    ensures Run(caps, st, [a, b]) == Next(caps, Next(caps, st, a), b)
    ensures !a.Delete? && !b.Delete? ==> LegalRun(caps, st, [a, b])
  {
    assert [a, b][1..] == [b];
    assert [b][1..] == [];
    var mid := Next(caps, st, a);
    assert Run(caps, mid, [b]) == Next(caps, mid, b);
    assert !b.Delete? ==> LegalRun(caps, mid, [b]);
  }

  lemma {:induction false} FillCarries(s: Scope, cap: nat, charged: set<nat>, u: nat, n: nat)
    requires u in charged
    ensures ReadsCarryOneOf(Fill(s, MinNat(u, cap), n), s, cap, charged)
  {
    if n > 0 { FillCarries(s, cap, charged, u, n - 1); }
  }

  // Claimers that see u fill the scope; then one that sees v reads it.
  lemma FillOverlooksCharge(caps: Caps, s: Scope, charged: set<nat>, u: nat, v: nat)
    requires u in charged && v in charged && MinNat(u, caps(s)) < MinNat(v, caps(s))
    ensures !PromiseKept(caps, s, charged)
  {
    var n := caps(s) - MinNat(u, caps(s));
    var fill, last := Fill(s, MinNat(u, caps(s)), n), Read(1, s, MinNat(v, caps(s)), None);
    var steps := fill + [last];
    FillClaimsAll(caps, s, MinNat(u, caps(s)), n);
    FillCarries(s, caps(s), charged, u, n);
    ReadAfter(caps, fill, last);
    assert steps[|fill|] == last;
    assert !ChargedPlusHeldFits(caps, s, steps);
  }

  lemma ReadAfter(caps: Caps, steps: seq<Step>, read: Step)
    requires read.Read? && LegalRun(caps, EMPTY, steps)
    ensures Run(caps, EMPTY, steps + [read]).rows == Run(caps, EMPTY, steps).rows
    ensures LegalRun(caps, EMPTY, steps + [read])
  {
    RunOne(caps, EMPTY, steps, read);
    LegalConcat(caps, EMPTY, steps, [read]);
    assert [read][1..] == [];
  }

  // ------------------------------------------------ the unique index

  predicate NoDelete(steps: seq<Step>) {
    forall i :: 0 <= i < |steps| ==> !steps[i].Delete?
  }

  predicate LogDistinct(st: State) {
    && (forall e :: e in st.log ==> e.key in st.rows)
    && (forall i, j :: 0 <= i < j < |st.log| ==> st.log[i].key != st.log[j].key)
  }

  // Without hard deletes no physical index is ever handed out twice, whatever is released.
  lemma {:induction false} NoIndexUsedTwice(caps: Caps, st: State, steps: seq<Step>)
    requires LogDistinct(st) && NoDelete(steps)
    ensures LogDistinct(Run(caps, st, steps))
    decreases |steps|
  {
    if steps != [] {
      var next := Next(caps, st, steps[0]);
      assert LogDistinct(next);
      assert NoDelete(steps[1..]);
      NoIndexUsedTwice(caps, next, steps[1..]);
    }
  }

  // ------------------------------------------------ hard deletes

  // Claimer 1 takes the last slot and gives it back, claimer 2 reads, the released row is deleted,
  // claimer 3 reads, and the two insert.
  function LateDelete(s: Scope, id: nat): (seq<Step>, seq<Step>) {
    ([Read(1, s, 0, None), Insert(1), ReleaseId(id), Read(2, s, 0, None)],
     [Delete(id), Read(3, s, 0, None), Insert(2), Insert(3)])
  }

  // Why a rollback may hard-delete only rows that were never released: whatever the cap, a run
  // that deletes one released row can end with one live row too many.
  lemma DeletingReleasedRowBreaksCap(caps: Caps, s: Scope)
    requires caps(s) >= 1
    ensures var fill := Fill(s, 0, caps(s) - 1);
            var late := LateDelete(s, Run(caps, EMPTY, fill).nextId);
            |Live(Run(caps, EMPTY, fill + late.0 + late.1).rows, s)| == caps(s) + 1
  {
    hide *;
    var fill := Fill(s, 0, caps(s) - 1);
    FillClaimsAll(caps, s, 0, caps(s) - 1);
    FillIds(caps, s, caps(s) - 1);
    var st := Run(caps, EMPTY, fill);
    var late := LateDelete(s, st.nextId);
    LateDeleteOverfills(caps, st, s);
    RunConcat(caps, EMPTY, fill, late.0);
    RunConcat(caps, EMPTY, fill + late.0, late.1);
  }

  ghost predicate IdsSmall(st: State) { forall k :: k in st.rows ==> st.rows[k].id < st.nextId }

  lemma {:induction false} FillIds(caps: Caps, s: Scope, n: nat)
    requires n <= caps(s)
    ensures IdsSmall(Run(caps, EMPTY, Fill(s, 0, n)))
  {
    if n > 0 {
      FillIds(caps, s, n - 1);
      FillClaimsAll(caps, s, 0, n - 1);
      var before := Run(caps, EMPTY, Fill(s, 0, n - 1));
      var last := [Read(0, s, 0, None), Insert(0)];
      RunConcat(caps, EMPTY, Fill(s, 0, n - 1), last);
      ClaimOnce(caps, before, 0, s, 0, None);
      RunPair(caps, before, last[0], last[1]);
      hide Live, Physical, NextFree, Run, ReadStep, InsertStep;
    }
  }

  lemma LateDeleteOverfills(caps: Caps, st: State, s: Scope)
    requires |Live(st.rows, s)| + 1 == caps(s) && IdsSmall(st)
    ensures var late := LateDelete(s, st.nextId);
            |Live(Run(caps, Run(caps, st, late.0), late.1).rows, s)| == caps(s) + 1
  {
    hide *;
    var id := st.nextId;
    ClaimReleaseRead(caps, st, s);
    var mid := Run(caps, st, LateDelete(s, id).0);
    var i0, i1 := NextFree(0, Physical(st.rows, s)), mid.pending[2].key.index;
    DeleteReadInsertTwice(caps, st, mid, s, i0, i1);
    TwoMore(st.rows, s, i1, Row(id + 1, None, None, None, false), i0, Row(id + 2, None, None, None, false));
  }

  lemma TwoMore(rows: Rows, s: Scope, i: nat, a: Row, j: nat, b: Row)
    requires i != j && Key(s, i) !in rows && Key(s, j) !in rows && !a.released && !b.released
    ensures |Live(rows[Key(s, i) := a][Key(s, j) := b], s)| == |Live(rows, s)| + 2
  {
    hide Live;
    LiveAfterInsert(rows, s, i, a);
    LiveAfterInsert(rows[Key(s, i) := a], s, j, b);
  }

  lemma ClaimReleaseRead(caps: Caps, st: State, s: Scope)
    requires |Live(st.rows, s)| + 1 == caps(s) && IdsSmall(st)
    ensures var mid := Run(caps, st, LateDelete(s, st.nextId).0);
            var i0 := NextFree(0, Physical(st.rows, s));
            && Key(s, i0) !in st.rows
            && mid.rows == st.rows[Key(s, i0) := Row(st.nextId, None, None, None, true)]
            && mid.nextId == st.nextId + 1
            && 2 in mid.pending && mid.pending[2].binding == None
            && mid.pending[2].key.scope == s && mid.pending[2].key !in mid.rows
  {
    var id, steps := st.nextId, LateDelete(s, st.nextId).0;
    var i0 := NextFree(0, Physical(st.rows, s));
    ClaimOnce(caps, st, 1, s, 0, None);
    var st1 := Next(caps, Next(caps, st, steps[0]), steps[1]);
    var st2 := Next(caps, st1, steps[2]);
    ReleaseNewest(st, s, i0);
    assert st2.rows == st.rows[Key(s, i0) := Row(id, None, None, None, true)];
    FreeKeyAbsent(st2.rows, s, 0);
    RunPair(caps, st, steps[0], steps[1]);
    RunPair(caps, st1, steps[2], steps[3]);
    RunConcat(caps, st, [steps[0], steps[1]], [steps[2], steps[3]]);
    assert steps == [steps[0], steps[1]] + [steps[2], steps[3]];
  }

  // Releasing the newest row touches no other, and gives the live rows of before.
  lemma ReleaseNewest(st: State, s: Scope, i: nat)
    requires IdsSmall(st) && Key(s, i) !in st.rows
    ensures var rows := st.rows[Key(s, i) := Row(st.nextId, None, None, None, false)];
            var after := Update(ReleaseId(st.nextId), rows);
            && after == st.rows[Key(s, i) := Row(st.nextId, None, None, None, true)]
            && Live(after, s) == Live(st.rows, s)
  {
    var after := st.rows[Key(s, i) := Row(st.nextId, None, None, None, true)];
    forall j ensures j in Live(after, s) <==> j in Live(st.rows, s) {
      if Key(s, j) in st.rows { assert after[Key(s, j)] == st.rows[Key(s, j)]; }
    }
  }

  lemma DeleteReadInsertTwice(caps: Caps, st: State, mid: State, s: Scope, i0: nat, i1: nat)
    requires |Live(st.rows, s)| + 1 == caps(s) && IdsSmall(st)
    requires i0 == NextFree(0, Physical(st.rows, s)) && Key(s, i0) !in st.rows
    requires mid.rows == st.rows[Key(s, i0) := Row(st.nextId, None, None, None, true)] && mid.nextId == st.nextId + 1
    requires 2 in mid.pending && mid.pending[2] == Pending(Key(s, i1), None) && Key(s, i1) !in mid.rows
    ensures Run(caps, mid, LateDelete(s, st.nextId).1).rows
            == st.rows[Key(s, i1) := Row(st.nextId + 1, None, None, None, false)]
                      [Key(s, i0) := Row(st.nextId + 2, None, None, None, false)]
  {
    hide Live, Physical, NextFree;
    var steps := LateDelete(s, st.nextId).1;
    var st4 := Next(caps, mid, steps[0]);
    assert st4.rows == st.rows;
    var st5 := Next(caps, st4, steps[1]);
    RunPair(caps, mid, steps[0], steps[1]);
    RunPair(caps, st5, steps[2], steps[3]);
    RunConcat(caps, mid, [steps[0], steps[1]], [steps[2], steps[3]]);
    assert steps == [steps[0], steps[1]] + [steps[2], steps[3]];
  }
}
