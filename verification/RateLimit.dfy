// Fixed-window rate limiting: the process-local dictionary and the shared bucket table keep
// different counters and still answer alike.
module RateLimit {
  import opened Options
  import opened Utils

  datatype Bucket = Bucket(key: string, window: int)

  type Counts = map<Bucket, nat>

  type Limits = string -> int

  // One ceiling of a batch: the key it counts under and its limit.
  datatype Spec = Spec(key: string, limit: int)

  // The limit of a key does not depend on the ceiling that names it.
  predicate LimitsOf(specs: seq<Spec>, lim: Limits) {
    forall i :: 0 <= i < |specs| ==> specs[i].limit == lim(specs[i].key)
  }

  datatype Decision = Decision(allowed: bool, retryAfter: real)

  // ------------------------------------------------------------------ windows

  // int(now - now % window_seconds) for a whole number of seconds.
  function WindowStart(now: real, w: nat): int
    requires w > 0
  {
    (now / w as real).Floor * w
  }

  function RetryAfter(now: real, w: nat): real
    requires w > 0
  {
    var left := (WindowStart(now, w) + w) as real - now;
    if left > 1.0 then left else 1.0
  }

  lemma WindowBounds(now: real, w: nat)
    requires w > 0
    ensures WindowStart(now, w) as real <= now < (WindowStart(now, w) + w) as real
    ensures WindowStart(now, w) % w == 0
  {
    MultipleLeavesNothing((now / w as real).Floor, w);
    var b := w as real;
    var f := (now / b).Floor;
    Quotient(now, f as real, b);
    Quotient(now, (f + 1) as real, b);
    WholeWindows(f, w);
    WholeWindows(f + 1, w);
    OneWindowMore(f, w);
  }

  lemma WholeWindows(f: int, w: nat)
    ensures (f * w) as real == f as real * w as real
  {
  }

  lemma MultipleLeavesNothing(f: int, w: nat)
    requires w > 0
    ensures (f * w) % w == 0
  {
    var q, r := (f * w) / w, (f * w) % w;
    assert f * w == q * w + r;
    if f - q >= 1 { IntScale(1, f - q, w); }
    if f - q <= -1 { IntScale(f - q, -1, w); }
    assert (f - q) * w == r;
  }

  lemma OneWindowMore(f: int, w: nat)
    ensures (f + 1) * w == f * w + w
  {
  }

  // Two different windows are at least one window length apart, in time order.
  lemma WindowsInOrder(t: real, u: real, w: nat)
    requires w > 0 && t <= u
    ensures WindowStart(t, w) <= WindowStart(u, w)
    ensures WindowStart(t, w) < WindowStart(u, w) ==> WindowStart(t, w) + w <= WindowStart(u, w)
  {
    var b := w as real;
    QuotientOrder(t, u, b);
    var f, g := (t / b).Floor, (u / b).Floor;
    assert f <= g;
    if f < g { IntScale(f + 1, g, w); } else { assert f == g; }
    OneWindowMore(f, w);
  }

  lemma IntScale(x: int, y: int, w: nat)
    requires x <= y
    ensures x * w <= y * w
  {
    assert y * w - x * w == (y - x) * w;
  }

  // Waiting as told always lands in a later window.
  lemma WaitingReachesLaterWindow(now: real, w: nat)
    requires w > 0
    ensures WindowStart(now + RetryAfter(now, w), w) >= WindowStart(now, w) + w
  {
    hide WindowStart;
    var later := now + RetryAfter(now, w);
    WindowBounds(now, w);
    WindowBounds(later, w);
    WindowsInOrder(now, later, w);
  }

  // The hint is the least wait, of a second or more, that reaches a later window.
  lemma HintIsLeastWait(now: real, d: real, w: nat)
    requires w > 0 && d >= 1.0
    ensures 1.0 <= RetryAfter(now, w) <= MaxReal(1.0, w as real)
    ensures WindowStart(now + d, w) > WindowStart(now, w) <==> RetryAfter(now, w) <= d
  {
    hide WindowStart;
    WindowBounds(now, w);
    WindowBounds(now + d, w);
    WindowsInOrder(now, now + d, w);
  }

  // ------------------------------------------------------------------ counters

  function Count(c: Counts, key: string, window: int): nat {
    if Bucket(key, window) in c then c[Bucket(key, window)] else 0
  }

  function Bump(c: Counts, key: string, window: int): Counts {
    c[Bucket(key, window) := Count(c, key, window) + 1]
  }

  function Evict(c: Counts, cutoff: int): Counts {
    map b | b in c && b.window >= cutoff :: c[b]
  }

  function Admit(): Decision { Decision(true, 0.0) }

  function Reject(now: real, w: nat): Decision
    requires w > 0
  {
    Decision(false, RetryAfter(now, w))
  }

  // Both stores start a write by dropping everything older than one window back.
  function Swept(c: Counts, now: real, w: nat): Counts
    requires w > 0
  {
    Evict(c, WindowStart(now, w) - w)
  }

  function MemRecord(c: Counts, key: string, limit: int, now: real, w: nat): (Counts, Decision)
    requires w > 0
  {
    var ws := WindowStart(now, w);
    var c' := Swept(c, now, w);
    if Count(c', key, ws) >= limit then (c', Reject(now, w)) else (Bump(c', key, ws), Admit())
  }

  predicate AnyFull(c: Counts, specs: seq<Spec>, ws: int) {
    exists i :: 0 <= i < |specs| && Count(c, specs[i].key, ws) >= specs[i].limit
  }

  function BumpAll(c: Counts, specs: seq<Spec>, ws: int): Counts
    decreases |specs|
  {
    if specs == [] then c else BumpAll(Bump(c, specs[0].key, ws), specs[1..], ws)
  }

  function MemBatch(c: Counts, specs: seq<Spec>, now: real, w: nat): (Counts, Decision)
    requires w > 0
  {
    var ws := WindowStart(now, w);
    var c' := Swept(c, now, w);
    if AnyFull(c', specs, ws) then (c', Reject(now, w)) else (BumpAll(c', specs, ws), Admit())
  }

  function MemPeek(c: Counts, key: string, limit: int, now: real, w: nat): Decision
    requires w > 0
  {
    if Count(c, key, WindowStart(now, w)) >= limit then Reject(now, w) else Admit()
  }

  // The table counts the request before it compares, so rejections are counted too.
  function DbRecord(c: Counts, key: string, limit: int, now: real, w: nat): (Counts, Decision)
    requires w > 0
  {
    var ws := WindowStart(now, w);
    var c' := Bump(Swept(c, now, w), key, ws);
    (c', if Count(c', key, ws) > limit then Reject(now, w) else Admit())
  }

  // The upserts of one transaction; None when one of them goes over its limit.
  function UpsertAll(c: Counts, specs: seq<Spec>, ws: int): Option<Counts>
    decreases |specs|
  {
    if specs == [] then Some(c)
    else
      var c' := Bump(c, specs[0].key, ws);
      if Count(c', specs[0].key, ws) > specs[0].limit then None else UpsertAll(c', specs[1..], ws)
  }

  // A rejected batch rolls the whole transaction back, its sweep included.
  function DbBatch(c: Counts, specs: seq<Spec>, now: real, w: nat): (Counts, Decision)
    requires w > 0
  {
    var r := UpsertAll(Swept(c, now, w), specs, WindowStart(now, w));
    if r.None? then (c, Reject(now, w)) else (r.value, Admit())
  }

  function DbPeek(c: Counts, key: string, limit: int, now: real, w: nat): Decision
    requires w > 0
  {
    var b := Bucket(key, WindowStart(now, w));
    if b in c && c[b] >= limit then Reject(now, w) else Admit()
  }

  // ------------------------------------------------------------------ batches

  // How many of the ceilings name a key.
  function Named(specs: seq<Spec>, key: string): nat
    decreases |specs|
  {
    if specs == [] then 0 else (if specs[0].key == key then 1 else 0) + Named(specs[1..], key)
  }

  lemma {:induction false} NamedSnoc(specs: seq<Spec>, spec: Spec, key: string)
    ensures Named(specs + [spec], key) == Named(specs, key) + (if spec.key == key then 1 else 0)
    decreases |specs|
  {
    if specs == [] {
      assert specs + [spec] == [spec];
    } else {
      assert (specs + [spec])[1..] == specs[1..] + [spec];
      NamedSnoc(specs[1..], spec, key);
    }
  }

  lemma {:induction false} BumpAllCounts(c: Counts, specs: seq<Spec>, ws: int, key: string, window: int)
    ensures Count(BumpAll(c, specs, ws), key, window) ==
            Count(c, key, window) + (if window == ws then Named(specs, key) else 0)
    decreases |specs|
  {
    if specs != [] { BumpAllCounts(Bump(c, specs[0].key, ws), specs[1..], ws, key, window); }
  }

  // Every ceiling leaves room for the requests the batch has made under its key up to there, its
  // own included.
  predicate RoomForAll(c: Counts, specs: seq<Spec>, ws: int) {
    forall i :: 0 <= i < |specs| ==> Count(c, specs[i].key, ws) + Named(specs[..i + 1], specs[i].key) <= specs[i].limit
  }

  lemma RoomForHead(c: Counts, specs: seq<Spec>, ws: int)
    requires specs != []
    ensures RoomForAll(c, specs, ws) <==>
            var c' := Bump(c, specs[0].key, ws);
            Count(c', specs[0].key, ws) <= specs[0].limit && RoomForAll(c', specs[1..], ws)
  {
    var rest, c' := specs[1..], Bump(c, specs[0].key, ws);
    assert specs[..1] == [specs[0]];
    forall i | 0 <= i < |rest|
      ensures Count(c, specs[i + 1].key, ws) + Named(specs[..i + 2], specs[i + 1].key)
              == Count(c', rest[i].key, ws) + Named(rest[..i + 1], rest[i].key)
    {
      assert specs[..i + 2][1..] == rest[..i + 1];
    }
    if RoomForAll(c, specs, ws) {
      forall i | 0 <= i < |rest|
        ensures Count(c', rest[i].key, ws) + Named(rest[..i + 1], rest[i].key) <= rest[i].limit {
        assert Count(c, specs[i + 1].key, ws) + Named(specs[..i + 2], specs[i + 1].key) <= specs[i + 1].limit;
      }
    }
    if Count(c', specs[0].key, ws) <= specs[0].limit && RoomForAll(c', rest, ws) {
      forall i | 0 <= i < |specs|
        ensures Count(c, specs[i].key, ws) + Named(specs[..i + 1], specs[i].key) <= specs[i].limit {
        if i > 0 {
          assert Count(c', rest[i - 1].key, ws) + Named(rest[..i], rest[i - 1].key) <= rest[i - 1].limit;
        }
      }
    }
  }

  lemma {:induction false} UpsertAllAdmits(c: Counts, specs: seq<Spec>, ws: int)
    ensures UpsertAll(c, specs, ws).Some? <==> RoomForAll(c, specs, ws)
    ensures UpsertAll(c, specs, ws).Some? ==> UpsertAll(c, specs, ws).value == BumpAll(c, specs, ws)
    decreases |specs|
  {
    if specs != [] {
      RoomForHead(c, specs, ws);
      UpsertAllAdmits(Bump(c, specs[0].key, ws), specs[1..], ws);
    }
  }

  // ------------------------------------------------------------------ simulation

  function Ceiling(limit: int): nat {
    if limit <= 0 then 0 else limit
  }

  function Clamp(n: nat, limit: int): nat {
    if n <= Ceiling(limit) then n else Ceiling(limit)
  }

  // From window ws on, the dictionary holds the table's count cut off at the limit.
  ghost predicate Sim(mem: Counts, db: Counts, lim: Limits, ws: int) {
    forall key, window :: window >= ws ==> Count(mem, key, window) == Clamp(Count(db, key, window), lim(key))
  }

  lemma SweepKeepsCounts(c: Counts, now: real, w: nat, key: string, window: int)
    requires w > 0 && window >= WindowStart(now, w)
    ensures Count(Swept(c, now, w), key, window) == Count(c, key, window)
  {
  }

  lemma RecordsAgree(mem: Counts, db: Counts, lim: Limits, key: string, now: real, w: nat)
    requires w > 0 && Sim(mem, db, lim, WindowStart(now, w))
    ensures MemRecord(mem, key, lim(key), now, w).1 == DbRecord(db, key, lim(key), now, w).1
    ensures Sim(MemRecord(mem, key, lim(key), now, w).0, DbRecord(db, key, lim(key), now, w).0,
                lim, WindowStart(now, w))
  {
    hide WindowStart;
    var ws := WindowStart(now, w);
    SweepKeepsCounts(mem, now, w, key, ws);
    SweepKeepsCounts(db, now, w, key, ws);
    var mem', db' := MemRecord(mem, key, lim(key), now, w).0, DbRecord(db, key, lim(key), now, w).0;
    forall k, window | window >= ws ensures Count(mem', k, window) == Clamp(Count(db', k, window), lim(k)) {
      SweepKeepsCounts(mem, now, w, k, window);
      SweepKeepsCounts(db, now, w, k, window);
    }
  }

  // The two batch commits agree exactly when some bucket is already full or every ceiling has room
  // for all the requests made under its key; a repeated key near its limit makes them differ.
  lemma BatchesAgreeIff(mem: Counts, db: Counts, lim: Limits, specs: seq<Spec>, now: real, w: nat)
    requires w > 0 && Sim(mem, db, lim, WindowStart(now, w)) && LimitsOf(specs, lim)
    ensures MemBatch(mem, specs, now, w).1 == DbBatch(db, specs, now, w).1
            <==> AnyFull(db, specs, WindowStart(now, w)) || RoomForAll(db, specs, WindowStart(now, w))
  {
    hide WindowStart;
    var ws := WindowStart(now, w);
    UpsertAllAdmits(Swept(db, now, w), specs, ws);
    SweepKeepsFullness(mem, db, lim, specs, now, w);
    if AnyFull(db, specs, ws) { FullHasNoRoom(db, specs, ws); }
  }

  lemma FullHasNoRoom(c: Counts, specs: seq<Spec>, ws: int)
    requires AnyFull(c, specs, ws)
    ensures !RoomForAll(c, specs, ws)
  {
    var i :| 0 <= i < |specs| && Count(c, specs[i].key, ws) >= specs[i].limit;
    assert specs[..i + 1] == specs[..i] + [specs[i]];
    NamedSnoc(specs[..i], specs[i], specs[i].key);
  }

  lemma SweepKeepsFullness(mem: Counts, db: Counts, lim: Limits, specs: seq<Spec>, now: real, w: nat)
    requires w > 0 && Sim(mem, db, lim, WindowStart(now, w)) && LimitsOf(specs, lim)
    ensures AnyFull(Swept(mem, now, w), specs, WindowStart(now, w)) <==> AnyFull(db, specs, WindowStart(now, w))
    ensures RoomForAll(Swept(db, now, w), specs, WindowStart(now, w)) <==> RoomForAll(db, specs, WindowStart(now, w))
  {
    hide WindowStart;
    var ws := WindowStart(now, w);
    forall i | 0 <= i < |specs|
      ensures Count(Swept(mem, now, w), specs[i].key, ws) >= specs[i].limit
              <==> Count(db, specs[i].key, ws) >= specs[i].limit
      ensures Count(Swept(db, now, w), specs[i].key, ws) == Count(db, specs[i].key, ws)
    {
      SweepKeepsCounts(mem, now, w, specs[i].key, ws);
      SweepKeepsCounts(db, now, w, specs[i].key, ws);
    }
  }

  predicate DistinctKeys(specs: seq<Spec>) {
    forall i, j :: 0 <= i < j < |specs| ==> specs[i].key != specs[j].key
  }

  predicate Names(specs: seq<Spec>, key: string) {
    exists i :: 0 <= i < |specs| && specs[i].key == key
  }

  lemma {:induction false} DistinctOnce(specs: seq<Spec>, key: string)
    requires DistinctKeys(specs)
    ensures Named(specs, key) == (if Names(specs, key) then 1 else 0)
    decreases |specs|
  {
    if specs != [] {
      DistinctOnce(specs[1..], key);
      if specs[0].key == key {
        assert Names(specs, key);
      } else {
        assert forall i :: 1 <= i < |specs| ==> specs[i] == specs[1..][i - 1];
      }
    }
  }

  lemma DistinctHasRoom(c: Counts, specs: seq<Spec>, ws: int)
    requires DistinctKeys(specs) && !AnyFull(c, specs, ws)
    ensures RoomForAll(c, specs, ws)
  {
    forall i | 0 <= i < |specs|
      ensures Count(c, specs[i].key, ws) + Named(specs[..i + 1], specs[i].key) <= specs[i].limit {
      DistinctOnce(specs[..i + 1], specs[i].key);
    }
  }

  lemma BatchesAgree(mem: Counts, db: Counts, lim: Limits, specs: seq<Spec>, now: real, w: nat)
    requires w > 0 && Sim(mem, db, lim, WindowStart(now, w)) && LimitsOf(specs, lim) && DistinctKeys(specs)
    ensures MemBatch(mem, specs, now, w).1 == DbBatch(db, specs, now, w).1
    ensures Sim(MemBatch(mem, specs, now, w).0, DbBatch(db, specs, now, w).0, lim, WindowStart(now, w))
  {
    hide WindowStart;
    var ws := WindowStart(now, w);
    BatchesAgreeIff(mem, db, lim, specs, now, w);
    SweepKeepsFullness(mem, db, lim, specs, now, w);
    if !AnyFull(db, specs, ws) { DistinctHasRoom(db, specs, ws); }
    UpsertAllAdmits(Swept(db, now, w), specs, ws);
    if AnyFull(db, specs, ws) { FullHasNoRoom(db, specs, ws); }
    var mem', db' := MemBatch(mem, specs, now, w).0, DbBatch(db, specs, now, w).0;
    forall k, window | window >= ws ensures Count(mem', k, window) == Clamp(Count(db', k, window), lim(k)) {
      SweepKeepsCounts(mem, now, w, k, window);
      SweepKeepsCounts(db, now, w, k, window);
      BumpAllCounts(Swept(mem, now, w), specs, ws, k, window);
      BumpAllCounts(Swept(db, now, w), specs, ws, k, window);
      DistinctOnce(specs, k);
      if !AnyFull(db, specs, ws) && Names(specs, k) { RoomUnlessFull(db, specs, lim, ws, k); }
    }
  }

  lemma RoomUnlessFull(c: Counts, specs: seq<Spec>, lim: Limits, ws: int, key: string)
    requires LimitsOf(specs, lim) && !AnyFull(c, specs, ws) && Names(specs, key)
    ensures Count(c, key, ws) < lim(key)
  {
    var i :| 0 <= i < |specs| && specs[i].key == key;
    assert Count(c, specs[i].key, ws) < specs[i].limit;
  }

  // The read-only halves agree exactly when the limit is positive or the table already has the
  // bucket: with a limit of 0 and no row yet, the table says yes and the dictionary says no.
  lemma PeeksAgreeIff(mem: Counts, db: Counts, lim: Limits, key: string, now: real, w: nat)
    requires w > 0 && Sim(mem, db, lim, WindowStart(now, w))
    ensures MemPeek(mem, key, lim(key), now, w) == DbPeek(db, key, lim(key), now, w)
            <==> lim(key) >= 1 || Bucket(key, WindowStart(now, w)) in db
  {
    hide WindowStart;
    assert Count(mem, key, WindowStart(now, w)) == Clamp(Count(db, key, WindowStart(now, w)), lim(key));
  }

  // An admitted call carries no hint, a rejected one the least wait.
  lemma HintsFollowAnswers(c: Counts, key: string, limit: int, specs: seq<Spec>, now: real, w: nat)
    requires w > 0
    ensures forall d: Decision :: d in [MemRecord(c, key, limit, now, w).1, DbRecord(c, key, limit, now, w).1,
                              MemBatch(c, specs, now, w).1, DbBatch(c, specs, now, w).1,
                              MemPeek(c, key, limit, now, w), DbPeek(c, key, limit, now, w)] ==>
              d.retryAfter == if d.allowed then 0.0 else RetryAfter(now, w)
  {
    hide WindowStart, RetryAfter;
  }

  // A peek foretells what a record at the same moment would answer: always in memory, and in the
  // table exactly when the limit is positive or the row exists.
  lemma PeekForetellsRecord(c: Counts, key: string, limit: int, now: real, w: nat)
    requires w > 0
    ensures MemPeek(c, key, limit, now, w) == MemRecord(c, key, limit, now, w).1
    ensures DbPeek(c, key, limit, now, w) == DbRecord(c, key, limit, now, w).1
       <==> limit >= 1 || Bucket(key, WindowStart(now, w)) in c
  {
    hide WindowStart, RetryAfter;
    SweepKeepsCounts(c, now, w, key, WindowStart(now, w));
  }

  // ------------------------------------------------------------------ whole call sequences

  datatype Call =
    | Record(key: string, limit: int, now: real)
    | Batch(specs: seq<Spec>, now: real)
    | Peek(key: string, limit: int, now: real)

  function MemCall(c: Counts, call: Call, w: nat): (Counts, Decision)
    requires w > 0
  {
    match call
    case Record(key, limit, now) => MemRecord(c, key, limit, now, w)
    case Batch(specs, now) => MemBatch(c, specs, now, w)
    case Peek(key, limit, now) => (c, MemPeek(c, key, limit, now, w))
  }

  function DbCall(c: Counts, call: Call, w: nat): (Counts, Decision)
    requires w > 0
  {
    match call
    case Record(key, limit, now) => DbRecord(c, key, limit, now, w)
    case Batch(specs, now) => DbBatch(c, specs, now, w)
    case Peek(key, limit, now) => (c, DbPeek(c, key, limit, now, w))
  }

  function MemRun(c: Counts, calls: seq<Call>, w: nat): seq<Decision>
    requires w > 0
    decreases |calls|
  {
    if calls == [] then []
    else var (c', d) := MemCall(c, calls[0], w); [d] + MemRun(c', calls[1..], w)
  }

  function DbRun(c: Counts, calls: seq<Call>, w: nat): seq<Decision>
    requires w > 0
    decreases |calls|
  {
    if calls == [] then []
    else var (c', d) := DbCall(c, calls[0], w); [d] + DbRun(c', calls[1..], w)
  }

  predicate TimesFrom(calls: seq<Call>, t: real) {
    && (forall i :: 0 <= i < |calls| ==> t <= calls[i].now)
    && (forall i, j :: 0 <= i < j < |calls| ==> calls[i].now <= calls[j].now)
  }

  // Every call carries the fixed limit of its key, and no batch names a key twice.
  predicate FixedLimits(call: Call, lim: Limits) {
    if call.Batch? then LimitsOf(call.specs, lim) && DistinctKeys(call.specs) else call.limit == lim(call.key)
  }

  // A peek with a limit below 1 finds its row in the table.
  predicate PeekFindsRow(db: Counts, call: Call, w: nat)
    requires w > 0
  {
    call.Peek? && call.limit < 1 ==> Bucket(call.key, WindowStart(call.now, w)) in db
  }

  predicate PeeksFindRows(db: Counts, calls: seq<Call>, w: nat)
    requires w > 0
    decreases |calls|
  {
    calls == [] || (PeekFindsRow(db, calls[0], w) && PeeksFindRows(DbCall(db, calls[0], w).0, calls[1..], w))
  }

  lemma CallsAgreeIff(mem: Counts, db: Counts, call: Call, lim: Limits, w: nat)
    requires w > 0 && Sim(mem, db, lim, WindowStart(call.now, w)) && FixedLimits(call, lim)
    ensures MemCall(mem, call, w).1 == DbCall(db, call, w).1 <==> PeekFindsRow(db, call, w)
    ensures Sim(MemCall(mem, call, w).0, DbCall(db, call, w).0, lim, WindowStart(call.now, w))
  {
    hide WindowStart, MemRecord, DbRecord, MemBatch, DbBatch, MemPeek, DbPeek, Sim;
    match call
    case Record(key, limit, now) => RecordsAgree(mem, db, lim, key, now, w);
    case Batch(specs, now) => BatchesAgree(mem, db, lim, specs, now, w);
    case Peek(key, limit, now) => PeeksAgreeIff(mem, db, lim, key, now, w);
  }

  lemma SimLater(mem: Counts, db: Counts, lim: Limits, t: real, u: real, w: nat)
    requires w > 0 && t <= u && Sim(mem, db, lim, WindowStart(t, w))
    ensures Sim(mem, db, lim, WindowStart(u, w))
  {
    WindowsInOrder(t, u, w);
  }

  lemma {:induction false} RunsAgreeIff(mem: Counts, db: Counts, calls: seq<Call>, lim: Limits, w: nat, t: real)
    requires w > 0 && Sim(mem, db, lim, WindowStart(t, w)) && TimesFrom(calls, t)
    requires forall i :: 0 <= i < |calls| ==> FixedLimits(calls[i], lim)
    ensures MemRun(mem, calls, w) == DbRun(db, calls, w) <==> PeeksFindRows(db, calls, w)
    decreases |calls|
  {
    hide Sim, WindowStart, MemCall, DbCall, PeekFindsRow, FixedLimits;
    if calls != [] {
      var call := calls[0];
      SimLater(mem, db, lim, t, call.now, w);
      CallsAgreeIff(mem, db, call, lim, w);
      assert TimesFrom(calls[1..], call.now);
      RunsAgreeIff(MemCall(mem, call, w).0, DbCall(db, call, w).0, calls[1..], lim, w, call.now);
      SameHeadSameTail(MemRun(mem, calls, w), DbRun(db, calls, w));
    }
  }

  lemma SameHeadSameTail<T>(a: seq<T>, b: seq<T>)
    requires a != [] && b != []
    ensures a == b <==> a[0] == b[0] && a[1..] == b[1..]
  {
    assert a == [a[0]] + a[1..] && b == [b[0]] + b[1..];
  }

  // On every call sequence with non-decreasing time, a fixed limit per key and distinct keys per
  // batch, the two stores give the same answers, retry hints included, exactly when every peek
  // with a limit below 1 finds its row.
  lemma StoresAgreeIff(calls: seq<Call>, lim: Limits, w: nat)
    requires w > 0
    requires forall i, j :: 0 <= i < j < |calls| ==> calls[i].now <= calls[j].now
    requires forall i :: 0 <= i < |calls| ==> FixedLimits(calls[i], lim)
    ensures MemRun(map[], calls, w) == DbRun(map[], calls, w) <==> PeeksFindRows(map[], calls, w)
  {
    if calls != [] {
      RunsAgreeIff(map[], map[], calls, lim, w, calls[0].now);
    }
  }

  // With positive limits that is always.
  lemma StoresAgree(calls: seq<Call>, lim: Limits, w: nat)
    requires w > 0
    requires forall i, j :: 0 <= i < j < |calls| ==> calls[i].now <= calls[j].now
    requires forall i :: 0 <= i < |calls| ==> FixedLimits(calls[i], lim) && (calls[i].Peek? ==> calls[i].limit >= 1)
    ensures MemRun(map[], calls, w) == DbRun(map[], calls, w)
  {
    StoresAgreeIff(calls, lim, w);
    PositivePeeks(map[], calls, w);
  }

  lemma {:induction false} PositivePeeks(db: Counts, calls: seq<Call>, w: nat)
    requires w > 0 && forall i :: 0 <= i < |calls| && calls[i].Peek? ==> calls[i].limit >= 1
    ensures PeeksFindRows(db, calls, w)
    decreases |calls|
  {
    if calls != [] { PositivePeeks(DbCall(db, calls[0], w).0, calls[1..], w); }
  }

  // ------------------------------------------------------------------ eviction

  // The same stores, never forgetting a window.
  function MemKeep(c: Counts, call: Call, w: nat): (Counts, Decision)
    requires w > 0
  {
    var ws := WindowStart(call.now, w);
    match call
    case Record(key, limit, now) =>
      if Count(c, key, ws) >= limit then (c, Reject(now, w)) else (Bump(c, key, ws), Admit())
    case Batch(specs, now) =>
      if AnyFull(c, specs, ws) then (c, Reject(now, w)) else (BumpAll(c, specs, ws), Admit())
    case Peek(key, limit, now) => (c, MemPeek(c, key, limit, now, w))
  }

  function DbKeep(c: Counts, call: Call, w: nat): (Counts, Decision)
    requires w > 0
  {
    var ws := WindowStart(call.now, w);
    match call
    case Record(key, limit, now) =>
      (Bump(c, key, ws), if Count(c, key, ws) + 1 > limit then Reject(now, w) else Admit())
    case Batch(specs, now) =>
      var r := UpsertAll(c, specs, ws);
      if r.None? then (c, Reject(now, w)) else (r.value, Admit())
    case Peek(key, limit, now) => (c, DbPeek(c, key, limit, now, w))
  }

  function MemKeepRun(c: Counts, calls: seq<Call>, w: nat): (ds: seq<Decision>)
    requires w > 0
    ensures |ds| == |calls|
    decreases |calls|
  {
    if calls == [] then []
    else var (c', d) := MemKeep(c, calls[0], w); [d] + MemKeepRun(c', calls[1..], w)
  }

  function DbKeepRun(c: Counts, calls: seq<Call>, w: nat): seq<Decision>
    requires w > 0
    decreases |calls|
  {
    if calls == [] then []
    else var (c', d) := DbKeep(c, calls[0], w); [d] + DbKeepRun(c', calls[1..], w)
  }

  // Same rows from window ws on.
  ghost predicate SameFrom(a: Counts, b: Counts, ws: int) {
    forall k: Bucket :: k.window >= ws ==> (k in a <==> k in b) && (k in a ==> a[k] == b[k])
  }

  lemma SweepIsSame(c: Counts, now: real, w: nat)
    requires w > 0
    ensures SameFrom(Swept(c, now, w), c, WindowStart(now, w))
  {
  }

  lemma {:induction false} BumpAllSame(a: Counts, b: Counts, specs: seq<Spec>, ws: int)
    requires SameFrom(a, b, ws)
    ensures SameFrom(BumpAll(a, specs, ws), BumpAll(b, specs, ws), ws)
    decreases |specs|
  {
    if specs != [] { BumpAllSame(Bump(a, specs[0].key, ws), Bump(b, specs[0].key, ws), specs[1..], ws); }
  }

  lemma MemKeepSame(a: Counts, b: Counts, call: Call, w: nat)
    requires w > 0 && SameFrom(a, b, WindowStart(call.now, w))
    ensures MemCall(a, call, w).1 == MemKeep(b, call, w).1
    ensures SameFrom(MemCall(a, call, w).0, MemKeep(b, call, w).0, WindowStart(call.now, w))
  {
    hide WindowStart, Swept;
    var ws := WindowStart(call.now, w);
    SweepIsSame(a, call.now, w);
    if call.Batch? {
      BumpAllSame(Swept(a, call.now, w), b, call.specs, ws);
    }
  }

  lemma DbKeepSame(a: Counts, b: Counts, call: Call, w: nat)
    requires w > 0 && SameFrom(a, b, WindowStart(call.now, w))
    ensures DbCall(a, call, w).1 == DbKeep(b, call, w).1
    ensures SameFrom(DbCall(a, call, w).0, DbKeep(b, call, w).0, WindowStart(call.now, w))
  {
    hide WindowStart, Swept;
    var ws := WindowStart(call.now, w);
    SweepIsSame(a, call.now, w);
    if call.Batch? {
      var a' := Swept(a, call.now, w);
      UpsertAllAdmits(a', call.specs, ws);
      UpsertAllAdmits(b, call.specs, ws);
      assert RoomForAll(a', call.specs, ws) <==> RoomForAll(b, call.specs, ws);
      BumpAllSame(a', b, call.specs, ws);
    }
  }

  lemma {:induction false} KeepRunsSame(m: Counts, mk: Counts, d: Counts, dk: Counts, calls: seq<Call>, w: nat, t: real)
    requires w > 0 && TimesFrom(calls, t)
    requires SameFrom(m, mk, WindowStart(t, w)) && SameFrom(d, dk, WindowStart(t, w))
    ensures MemRun(m, calls, w) == MemKeepRun(mk, calls, w)
    ensures DbRun(d, calls, w) == DbKeepRun(dk, calls, w)
    decreases |calls|
  {
    hide WindowStart, MemCall, MemKeep, DbCall, DbKeep;
    if calls != [] {
      var call := calls[0];
      WindowsInOrder(t, call.now, w);
      MemKeepSame(m, mk, call, w);
      DbKeepSame(d, dk, call, w);
      assert TimesFrom(calls[1..], call.now);
      KeepRunsSame(MemCall(m, call, w).0, MemKeep(mk, call, w).0,
                   DbCall(d, call, w).0, DbKeep(dk, call, w).0, calls[1..], w, call.now);
    }
  }

  // Sweeping old windows never changes an answer of either store.
  lemma EvictionChangesNoAnswer(calls: seq<Call>, w: nat)
    requires w > 0
    requires forall i, j :: 0 <= i < j < |calls| ==> calls[i].now <= calls[j].now
    ensures MemRun(map[], calls, w) == MemKeepRun(map[], calls, w)
    ensures DbRun(map[], calls, w) == DbKeepRun(map[], calls, w)
  {
    if calls != [] {
      KeepRunsSame(map[], map[], map[], map[], calls, w, calls[0].now);
    }
  }

  // ------------------------------------------------------------------ how much is admitted

  predicate Consumes(call: Call, key: string) {
    (call.Record? && call.key == key) || (call.Batch? && Names(call.specs, key))
  }

  // Number of calls that were admitted, consumed `key`, and happened at a time satisfying p.
  function Admitted(calls: seq<Call>, ds: seq<Decision>, key: string, p: real -> bool): nat
    requires |calls| == |ds|
    decreases |calls|
  {
    if calls == [] then 0
    else (if ds[0].allowed && Consumes(calls[0], key) && p(calls[0].now) then 1 else 0)
         + Admitted(calls[1..], ds[1..], key, p)
  }

  lemma {:induction false} AdmittedSplits(calls: seq<Call>, ds: seq<Decision>, key: string, p: real -> bool,
                                          q: real -> bool, r: real -> bool)
    requires |calls| == |ds|
    requires forall t :: p(t) ==> q(t) || r(t)
    ensures Admitted(calls, ds, key, p) <= Admitted(calls, ds, key, q) + Admitted(calls, ds, key, r)
    decreases |calls|
  {
    if calls != [] { AdmittedSplits(calls[1..], ds[1..], key, p, q, r); }
  }

  function InWindow(ws: int, w: nat): real -> bool
    requires w > 0
  {
    t => WindowStart(t, w) == ws
  }

  // Every call that counts under the key carries this limit for it, and batches name keys once.
  predicate LimitedTo(call: Call, key: string, limit: int) {
    && (call.Record? && call.key == key ==> call.limit == limit)
    && (call.Batch? ==> DistinctKeys(call.specs)
                        && forall i :: 0 <= i < |call.specs| && call.specs[i].key == key
                            ==> call.specs[i].limit == limit)
  }

  lemma KeepStepCounts(c: Counts, call: Call, w: nat, key: string, limit: int, ws: int)
    requires w > 0 && LimitedTo(call, key, limit)
    ensures var (c', d) := MemKeep(c, call, w);
            if d.allowed && Consumes(call, key) && WindowStart(call.now, w) == ws
            then Count(c', key, ws) == Count(c, key, ws) + 1 && Count(c, key, ws) < limit
            else Count(c', key, ws) == Count(c, key, ws)
  {
    hide WindowStart;
    if call.Batch? {
      BumpAllCounts(c, call.specs, WindowStart(call.now, w), key, ws);
      DistinctOnce(call.specs, key);
      if Names(call.specs, key) && WindowStart(call.now, w) == ws {
        var i :| 0 <= i < |call.specs| && call.specs[i].key == key;
        assert !AnyFull(c, call.specs, ws) ==> Count(c, call.specs[i].key, ws) < call.specs[i].limit;
      }
    }
  }

  lemma {:induction false} KeepAdmitsUpTo(c: Counts, calls: seq<Call>, w: nat, key: string, limit: int, ws: int)
    requires w > 0 && Count(c, key, ws) <= Ceiling(limit)
    requires forall i :: 0 <= i < |calls| ==> LimitedTo(calls[i], key, limit)
    ensures Count(c, key, ws) + Admitted(calls, MemKeepRun(c, calls, w), key, InWindow(ws, w)) <= Ceiling(limit)
    decreases |calls|
  {
    hide WindowStart, MemKeep, LimitedTo;
    if calls != [] {
      var (c', d) := MemKeep(c, calls[0], w);
      KeepStepCounts(c, calls[0], w, key, limit, ws);
      assert MemKeepRun(c, calls, w)[1..] == MemKeepRun(c', calls[1..], w);
      KeepAdmitsUpTo(c', calls[1..], w, key, limit, ws);
    }
  }

  // The table counts rejections too, so its count cut off at the limit is what it has admitted.
  lemma DbKeepStepCounts(c: Counts, call: Call, w: nat, key: string, limit: int, ws: int)
    requires w > 0 && LimitedTo(call, key, limit)
    ensures var (c', d) := DbKeep(c, call, w);
            if d.allowed && Consumes(call, key) && WindowStart(call.now, w) == ws
            then Count(c', key, ws) == Count(c, key, ws) + 1 <= limit
            else Clamp(Count(c', key, ws), limit) == Clamp(Count(c, key, ws), limit)
  {
    hide WindowStart;
    if call.Batch? {
      var now := WindowStart(call.now, w);
      UpsertAllAdmits(c, call.specs, now);
      BumpAllCounts(c, call.specs, now, key, ws);
      DistinctOnce(call.specs, key);
      if RoomForAll(c, call.specs, now) && Names(call.specs, key) { RoomForNamed(c, call.specs, now, key, limit); }
    }
  }

  lemma RoomForNamed(c: Counts, specs: seq<Spec>, ws: int, key: string, limit: int)
    requires RoomForAll(c, specs, ws) && Names(specs, key)
    requires forall i :: 0 <= i < |specs| && specs[i].key == key ==> specs[i].limit == limit
    ensures Count(c, key, ws) + 1 <= limit
  {
    var i :| 0 <= i < |specs| && specs[i].key == key;
    assert specs[..i + 1] == specs[..i] + [specs[i]];
    NamedSnoc(specs[..i], specs[i], key);
    assert Count(c, specs[i].key, ws) + Named(specs[..i + 1], specs[i].key) <= specs[i].limit;
  }

  lemma {:induction false} DbKeepAdmitsUpTo(c: Counts, calls: seq<Call>, w: nat, key: string, limit: int, ws: int)
    requires w > 0 && forall i :: 0 <= i < |calls| ==> LimitedTo(calls[i], key, limit)
    ensures |DbKeepRun(c, calls, w)| == |calls|
    ensures Clamp(Count(c, key, ws), limit) + Admitted(calls, DbKeepRun(c, calls, w), key, InWindow(ws, w))
            <= Ceiling(limit)
    decreases |calls|
  {
    hide WindowStart, DbKeep, LimitedTo;
    if calls != [] {
      var (c', d) := DbKeep(c, calls[0], w);
      DbKeepStepCounts(c, calls[0], w, key, limit, ws);
      assert DbKeepRun(c, calls, w)[1..] == DbKeepRun(c', calls[1..], w);
      DbKeepAdmitsUpTo(c', calls[1..], w, key, limit, ws);
    }
  }

  predicate OrderedCalls(calls: seq<Call>, key: string, limit: int) {
    && (forall i, j :: 0 <= i < j < |calls| ==> calls[i].now <= calls[j].now)
    && (forall i :: 0 <= i < |calls| ==> LimitedTo(calls[i], key, limit))
  }

  // Per key, each store admits at most `limit` calls in one fixed window ...
  lemma AtMostLimitPerWindow(calls: seq<Call>, w: nat, key: string, limit: int, ws: int)
    requires w > 0 && OrderedCalls(calls, key, limit)
    ensures |MemRun(map[], calls, w)| == |calls| == |DbRun(map[], calls, w)|
    ensures Admitted(calls, MemRun(map[], calls, w), key, InWindow(ws, w)) <= Ceiling(limit)
    ensures Admitted(calls, DbRun(map[], calls, w), key, InWindow(ws, w)) <= Ceiling(limit)
  {
    EvictionChangesNoAnswer(calls, w);
    KeepAdmitsUpTo(map[], calls, w, key, limit, ws);
    DbKeepAdmitsUpTo(map[], calls, w, key, limit, ws);
  }

  // One more request of the key is admitted exactly when fewer than `limit` were admitted in its
  // window so far, by either store.
  lemma AdmittedIffBelowLimit(calls: seq<Call>, key: string, limit: int, now: real, w: nat)
    requires w > 0 && OrderedCalls(calls + [Record(key, limit, now)], key, limit)
    ensures var (more, p) := (calls + [Record(key, limit, now)], InWindow(WindowStart(now, w), w));
            && |MemRun(map[], calls, w)| == |calls| == |DbRun(map[], calls, w)|
            && |MemRun(map[], more, w)| == |calls| + 1 == |DbRun(map[], more, w)|
            && MemRun(map[], more, w)[..|calls|] == MemRun(map[], calls, w)
            && DbRun(map[], more, w)[..|calls|] == DbRun(map[], calls, w)
            && (MemRun(map[], more, w)[|calls|].allowed <==> Admitted(calls, MemRun(map[], calls, w), key, p) < limit)
            && (DbRun(map[], more, w)[|calls|].allowed <==> Admitted(calls, DbRun(map[], calls, w), key, p) < limit)
            && (forall ds: seq<Decision> | ds in [MemRun(map[], more, w), DbRun(map[], more, w)] ::
                  ds[|calls|].retryAfter == if ds[|calls|].allowed then 0.0 else RetryAfter(now, w))
  {
    var more := calls + [Record(key, limit, now)];
    EarlierCallsOrdered(calls, Record(key, limit, now), key, limit);
    hide WindowStart, MemKeepRun, DbKeepRun, MemRun, DbRun, RetryAfter;
    EvictionChangesNoAnswer(calls, w);
    EvictionChangesNoAnswer(more, w);
    KeepDecides(map[], calls, key, limit, now, w);
    DbKeepDecides(map[], calls, key, limit, now, w);
  }

  lemma EarlierCallsOrdered(calls: seq<Call>, last: Call, key: string, limit: int)
    requires OrderedCalls(calls + [last], key, limit)
    ensures OrderedCalls(calls, key, limit)
    ensures forall i :: 0 <= i < |calls| ==> calls[i].now <= last.now
  {
    var more := calls + [last];
    assert more[|calls|] == last && forall i :: 0 <= i < |calls| ==> calls[i] == more[i];
    forall i | 0 <= i < |calls| ensures LimitedTo(calls[i], key, limit) && calls[i].now <= last.now {
      assert LimitedTo(more[i], key, limit) && more[i].now <= more[|calls|].now;
    }
    forall i, j | 0 <= i < j < |calls| ensures calls[i].now <= calls[j].now { assert more[i].now <= more[j].now; }
  }

  lemma {:induction false} KeepDecides(c: Counts, calls: seq<Call>, key: string, limit: int, now: real, w: nat)
    requires w > 0 && forall i :: 0 <= i < |calls| ==> LimitedTo(calls[i], key, limit)
    ensures var (more, ws) := (calls + [Record(key, limit, now)], WindowStart(now, w));
            && MemKeepRun(c, more, w)[..|calls|] == MemKeepRun(c, calls, w)
            && MemKeepRun(c, more, w)[|calls|].retryAfter
               == (if MemKeepRun(c, more, w)[|calls|].allowed then 0.0 else RetryAfter(now, w))
            && (MemKeepRun(c, more, w)[|calls|].allowed
                <==> Count(c, key, ws) + Admitted(calls, MemKeepRun(c, calls, w), key, InWindow(ws, w)) < limit)
    decreases |calls|
  {
    var more := calls + [Record(key, limit, now)];
    if calls == [] {
      hide WindowStart, RetryAfter;
      assert more[0] == Record(key, limit, now) && more[1..] == [];
    } else {
      hide WindowStart, MemKeep, LimitedTo, RetryAfter;
      var (c', d) := MemKeep(c, calls[0], w);
      KeepStepCounts(c, calls[0], w, key, limit, WindowStart(now, w));
      assert more[0] == calls[0] && more[1..] == calls[1..] + [Record(key, limit, now)];
      KeepDecides(c', calls[1..], key, limit, now, w);
      assert MemKeepRun(c, calls, w) == [d] + MemKeepRun(c', calls[1..], w);
      assert MemKeepRun(c, more, w) == [d] + MemKeepRun(c', more[1..], w);
    }
  }

  lemma {:induction false} DbKeepDecides(c: Counts, calls: seq<Call>, key: string, limit: int, now: real, w: nat)
    requires w > 0 && forall i :: 0 <= i < |calls| ==> LimitedTo(calls[i], key, limit)
    ensures var (more, ws) := (calls + [Record(key, limit, now)], WindowStart(now, w));
            && |DbKeepRun(c, calls, w)| == |calls| && |DbKeepRun(c, more, w)| == |calls| + 1
            && DbKeepRun(c, more, w)[..|calls|] == DbKeepRun(c, calls, w)
            && DbKeepRun(c, more, w)[|calls|].retryAfter
               == (if DbKeepRun(c, more, w)[|calls|].allowed then 0.0 else RetryAfter(now, w))
            && (DbKeepRun(c, more, w)[|calls|].allowed
                <==> Clamp(Count(c, key, ws), limit)
                     + Admitted(calls, DbKeepRun(c, calls, w), key, InWindow(ws, w)) < limit)
    decreases |calls|
  {
    var more := calls + [Record(key, limit, now)];
    if calls == [] {
      hide WindowStart, RetryAfter;
      assert more[0] == Record(key, limit, now) && more[1..] == [];
    } else {
      hide WindowStart, DbKeep, LimitedTo, RetryAfter;
      var (c', d) := DbKeep(c, calls[0], w);
      DbKeepStepCounts(c, calls[0], w, key, limit, WindowStart(now, w));
      assert more[0] == calls[0] && more[1..] == calls[1..] + [Record(key, limit, now)];
      DbKeepDecides(c', calls[1..], key, limit, now, w);
      assert DbKeepRun(c, calls, w) == [d] + DbKeepRun(c', calls[1..], w);
      assert DbKeepRun(c, more, w) == [d] + DbKeepRun(c', more[1..], w);
    }
  }

  // A rejected caller that waits exactly as told is admitted, by either store, when nobody calls
  // meanwhile and its limit is positive.
  lemma WaitedCallIsAdmitted(calls: seq<Call>, key: string, limit: int, now: real, w: nat)
    requires w > 0 && limit >= 1 && OrderedCalls(calls + [Record(key, limit, now)], key, limit)
    ensures var more := calls + [Record(key, limit, now)];
            var again := more + [Record(key, limit, now + RetryAfter(now, w))];
            && |MemRun(map[], again, w)| == |calls| + 2 == |DbRun(map[], again, w)|
            && MemRun(map[], again, w)[|calls| + 1].allowed && DbRun(map[], again, w)[|calls| + 1].allowed
  {
    hide RetryAfter;
    var more := calls + [Record(key, limit, now)];
    var later := now + RetryAfter(now, w);
    HintIsLeastWait(now, 1.0, w);
    WaitingReachesLaterWindow(now, w);
    LaterCallOrdered(more, Record(key, limit, later), key, limit);
    AdmittedIffBelowLimit(more, key, limit, later, w);
    forall i | 0 <= i < |more| ensures !InWindow(WindowStart(later, w), w)(more[i].now) {
      assert more[|calls|] == Record(key, limit, now) && more[i].now <= more[|calls|].now;
      WindowsInOrder(more[i].now, now, w);
    }
    NoneAdmitted(more, MemRun(map[], more, w), key, InWindow(WindowStart(later, w), w));
    NoneAdmitted(more, DbRun(map[], more, w), key, InWindow(WindowStart(later, w), w));
  }

  lemma LaterCallOrdered(calls: seq<Call>, last: Call, key: string, limit: int)
    requires OrderedCalls(calls, key, limit) && LimitedTo(last, key, limit)
    requires calls != [] ==> calls[|calls| - 1].now <= last.now
    ensures OrderedCalls(calls + [last], key, limit)
  {
    hide LimitedTo;
  }

  lemma {:induction false} NoneAdmitted(calls: seq<Call>, ds: seq<Decision>, key: string, p: real -> bool)
    requires |calls| == |ds| && forall i :: 0 <= i < |calls| ==> !p(calls[i].now)
    ensures Admitted(calls, ds, key, p) == 0
    decreases |calls|
  {
    if calls != [] { NoneAdmitted(calls[1..], ds[1..], key, p); }
  }

  function InSpan(a: real, w: nat): real -> bool {
    t => a <= t <= a + w as real
  }

  // ... and at most twice that in any span of one window length, wherever it starts.
  lemma AtMostTwiceInAnySpan(calls: seq<Call>, w: nat, key: string, limit: int, a: real)
    requires w > 0 && OrderedCalls(calls, key, limit)
    ensures |MemRun(map[], calls, w)| == |calls| == |DbRun(map[], calls, w)|
    ensures Admitted(calls, MemRun(map[], calls, w), key, InSpan(a, w)) <= 2 * Ceiling(limit)
    ensures Admitted(calls, DbRun(map[], calls, w), key, InSpan(a, w)) <= 2 * Ceiling(limit)
  {
    var first := WindowStart(a, w);
    AtMostLimitPerWindow(calls, w, key, limit, first);
    AtMostLimitPerWindow(calls, w, key, limit, first + w);
    forall t | InSpan(a, w)(t) ensures InWindow(first, w)(t) || InWindow(first + w, w)(t) {
      SpanTouchesTwoWindows(a, t, w);
    }
    AdmittedSplits(calls, MemRun(map[], calls, w), key, InSpan(a, w), InWindow(first, w), InWindow(first + w, w));
    AdmittedSplits(calls, DbRun(map[], calls, w), key, InSpan(a, w), InWindow(first, w), InWindow(first + w, w));
  }

  lemma SpanTouchesTwoWindows(a: real, t: real, w: nat)
    requires w > 0 && a <= t <= a + w as real
    ensures WindowStart(t, w) == WindowStart(a, w) || WindowStart(t, w) == WindowStart(a, w) + w
  {
    WindowsInOrder(a, t, w);
    WindowsInOrder(t, a + w as real, w);
    NextWindow(a, w);
  }

  lemma NextWindow(a: real, w: nat)
    requires w > 0
    ensures WindowStart(a + w as real, w) == WindowStart(a, w) + w
  {
    var b := w as real;
    assert (a + b) / b == a / b + b / b;
    assert b / b == 1.0;
    assert ((a / b) + 1.0).Floor == (a / b).Floor + 1;
    assert ((a / b).Floor + 1) * w == (a / b).Floor * w + w;
  }

  // ------------------------------------------------------------------ the stores

  method SweepOld(counts: Counts, cutoff: int) returns (kept: Counts)
    ensures kept == Evict(counts, cutoff)
  {
    kept := counts;
    var todo := counts.Keys;
    while todo != {}
      invariant todo <= counts.Keys
      invariant kept == map b | b in counts && (b in todo || b.window >= cutoff) :: counts[b]
      decreases todo
    {
      var b :| b in todo;
      todo := todo - {b};
      if b.window < cutoff {
        kept := kept - {b};
      }
    }
  }

  class InMemoryStore {
    var counts: Counts

    constructor ()
      ensures counts == map[]
    {
      counts := map[];
    }

    method RecordRequest(key: string, now: real, limit: int, w: nat) returns (d: Decision)
      requires w > 0
      modifies this
      ensures (counts, d) == MemRecord(old(counts), key, limit, now, w)
    {
      var ws := WindowStart(now, w);
      counts := SweepOld(counts, ws - w);
      var current := Count(counts, key, ws);
      if current >= limit {
        return Reject(now, w);
      }
      counts := counts[Bucket(key, ws) := current + 1];
      return Admit();
    }

    method RecordRequests(specs: seq<Spec>, now: real, w: nat) returns (d: Decision)
      requires w > 0
      modifies this
      ensures (counts, d) == MemBatch(old(counts), specs, now, w)
    {
      hide WindowStart;
      var ws := WindowStart(now, w);
      counts := SweepOld(counts, ws - w);
      var i := 0;
      while i < |specs|
        invariant 0 <= i <= |specs| && counts == Swept(old(counts), now, w)
        invariant forall j :: 0 <= j < i ==> Count(counts, specs[j].key, ws) < specs[j].limit
      {
        if Count(counts, specs[i].key, ws) >= specs[i].limit {
          return Reject(now, w);
        }
        i := i + 1;
      }
      ghost var swept := counts;
      assert !AnyFull(swept, specs, ws);
      i := 0;
      while i < |specs|
        invariant 0 <= i <= |specs|
        invariant BumpAll(counts, specs[i..], ws) == BumpAll(swept, specs, ws)
      {
        assert specs[i..][0] == specs[i] && specs[i..][1..] == specs[i + 1..];
        counts := counts[Bucket(specs[i].key, ws) := Count(counts, specs[i].key, ws) + 1];
        i := i + 1;
      }
      return Admit();
    }

    method PeekRequest(key: string, now: real, limit: int, w: nat) returns (d: Decision)
      requires w > 0
      ensures d == MemPeek(counts, key, limit, now, w)
    {
      var current := Count(counts, key, WindowStart(now, w));
      if current >= limit {
        return Reject(now, w);
      }
      return Admit();
    }

    method Reset()
      modifies this
      ensures counts == map[]
    {
      counts := map[];
    }
  }

  class DatabaseStore {
    var rows: Counts

    constructor ()
      ensures rows == map[]
    {
      rows := map[];
    }

    // INSERT ... ON CONFLICT DO UPDATE ... RETURNING count
    method UpsertCount(key: string, ws: int) returns (count: nat)
      modifies this
      ensures rows == Bump(old(rows), key, ws) && count == Count(rows, key, ws)
    {
      count := Count(rows, key, ws) + 1;
      rows := rows[Bucket(key, ws) := count];
    }

    method RecordRequest(key: string, now: real, limit: int, w: nat) returns (d: Decision)
      requires w > 0
      modifies this
      ensures (rows, d) == DbRecord(old(rows), key, limit, now, w)
    {
      var ws := WindowStart(now, w);
      rows := SweepOld(rows, ws - w);
      var count := UpsertCount(key, ws);
      if count > limit {
        return Reject(now, w);
      }
      return Admit();
    }

    method RecordRequests(specs: seq<Spec>, now: real, w: nat) returns (d: Decision)
      requires w > 0
      modifies this
      ensures (rows, d) == DbBatch(old(rows), specs, now, w)
    {
      hide WindowStart;
      var begun := rows;
      var ws := WindowStart(now, w);
      rows := SweepOld(rows, ws - w);
      var i := 0;
      while i < |specs|
        invariant 0 <= i <= |specs|
        invariant UpsertAll(rows, specs[i..], ws) == UpsertAll(Swept(old(rows), now, w), specs, ws)
      {
        assert specs[i..][0] == specs[i] && specs[i..][1..] == specs[i + 1..];
        var count := UpsertCount(specs[i].key, ws);
        if count > specs[i].limit {
          rows := begun;
          return Reject(now, w);
        }
        i := i + 1;
      }
      return Admit();
    }

    method PeekRequest(key: string, now: real, limit: int, w: nat) returns (d: Decision)
      requires w > 0
      ensures d == DbPeek(rows, key, limit, now, w)
    {
      var b := Bucket(key, WindowStart(now, w));
      if b in rows && rows[b] >= limit {
        return Reject(now, w);
      }
      return Admit();
    }
  }
}
