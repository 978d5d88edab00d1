// The hash-chained event log, its three verifiers, and what a tip hash pins down.
module HashChain {
  datatype Value = Text(text: string) | Number(number: int) | Absent

  type Body = map<string, Value>

  type Hash = string

  // The digest of a previous hash and a body, standing for SHA-256 over the canonical text.
  type Digest = (Hash, Body) -> Hash

  const GENESIS: Hash := Zeros(64)

  function Zeros(n: nat): (s: string)
    ensures |s| == n && forall i :: 0 <= i < n ==> s[i] == '0'
  {
    if n == 0 then "" else Zeros(n - 1) + "0"
  }

  const EXCLUDED: set<string> := {"event_hash", "prev_event_hash", "created_at"}

  datatype Stored = Stored(sequence: int, prevHash: Hash, eventHash: Hash, body: Body)

  // Different previous hashes or bodies have different digests.
  ghost predicate Injective(digest: Digest)
  {
    forall p, b, q, c :: digest(p, b) == digest(q, c) ==> p == q && b == c
  }

  // compute_event_hash
  function EventHash(digest: Digest, prev: Hash, body: Body): Hash
  {
    digest(prev, body - EXCLUDED)
  }

  function TipOf(log: seq<Stored>): Hash
  {
    if log == [] then GENESIS else log[|log| - 1].eventHash
  }

  // ------------------------------------------------ acceptance, event by event

  predicate ContiguousAt(log: seq<Stored>, i: nat)
    requires i < |log|
  {
    log[i].sequence == i
  }

  predicate ChainedAt(log: seq<Stored>, i: nat)
    requires i < |log|
  {
    log[i].prevHash == TipOf(log[..i])
  }

  predicate SealedAt(digest: Digest, log: seq<Stored>, i: nat)
    requires i < |log|
  {
    log[i].eventHash == EventHash(digest, TipOf(log[..i]), log[i].body)
  }

  predicate GoodAt(digest: Digest, log: seq<Stored>, i: nat)
    requires i < |log|
  {
    ContiguousAt(log, i) && ChainedAt(log, i) && SealedAt(digest, log, i)
  }

  predicate LinkedUpTo(log: seq<Stored>, n: nat)
    requires n <= |log|
  {
    forall i: nat :: i < n ==> ContiguousAt(log, i) && ChainedAt(log, i)
  }

  predicate SealedUpTo(digest: Digest, log: seq<Stored>, n: nat)
    requires n <= |log|
  {
    forall i: nat :: i < n ==> SealedAt(digest, log, i)
  }

  predicate Accepted(digest: Digest, log: seq<Stored>)
  {
    LinkedUpTo(log, |log|) && SealedUpTo(digest, log, |log|)
  }

  // An accepted log numbers its events from 0, starts from 64 zeros, gives every event the hash of
  // the one before it, and hashes that with the event's body but for three keys.
  lemma AcceptedMeans(digest: Digest, log: seq<Stored>)
    ensures Accepted(digest, log) <==> forall i: nat :: i < |log| ==> Follows(digest, log, i)
  {
    AcceptedIffAllGood(digest, log);
    forall i: nat | i < |log| ensures GoodAt(digest, log, i) <==> Follows(digest, log, i) {
      OnlyZeros(log[i].prevHash);
    }
  }

  predicate Follows(digest: Digest, log: seq<Stored>, i: nat)
    requires i < |log|
  {
    && log[i].sequence == i
    && (if i == 0 then |log[i].prevHash| == 64 && forall c :: c in log[i].prevHash ==> c == '0'
        else log[i].prevHash == log[i - 1].eventHash)
    && log[i].eventHash == digest(log[i].prevHash, log[i].body - {"event_hash", "prev_event_hash", "created_at"})
  }

  lemma OnlyZeros(s: Hash)
    ensures s == GENESIS <==> |s| == 64 && forall c :: c in s ==> c == '0'
  {
    if |s| == 64 && forall c :: c in s ==> c == '0' {
      forall i | 0 <= i < 64 ensures s[i] == GENESIS[i] { assert s[i] in s; }
    }
  }

  // ------------------------------------------------ appending

  function Seal(digest: Digest, log: seq<Stored>, body: Body): Stored
  {
    Stored(|log|, TipOf(log), EventHash(digest, TipOf(log), body), body)
  }

  // The log that appending these bodies to an empty one builds.
  function Built(digest: Digest, bodies: seq<Body>): seq<Stored>
  {
    if bodies == [] then []
    else
      var before := Built(digest, bodies[..|bodies| - 1]);
      before + [Seal(digest, before, bodies[|bodies| - 1])]
  }

  function Bodies(log: seq<Stored>): seq<Body>
  {
    seq(|log|, i requires 0 <= i < |log| => log[i].body)
  }

  lemma PrefixAccepted(digest: Digest, log: seq<Stored>, n: nat)
    requires Accepted(digest, log) && n <= |log|
    ensures Accepted(digest, log[..n])
  {
    var prefix := log[..n];
    forall i: nat | i < n ensures ContiguousAt(prefix, i) && ChainedAt(prefix, i) && SealedAt(digest, prefix, i) {
      assert prefix[..i] == log[..i];
      assert ContiguousAt(log, i) && ChainedAt(log, i) && SealedAt(digest, log, i);
    }
  }

  lemma AppendAccepted(digest: Digest, log: seq<Stored>, e: Stored)
    requires Accepted(digest, log)
    ensures Accepted(digest, log + [e]) <==> e == Seal(digest, log, e.body)
  {
    var longer := log + [e];
    assert longer[..|log|] == log;
    forall i: nat | i < |log| ensures longer[..i] == log[..i] { }
    if e == Seal(digest, log, e.body) {
      forall i: nat | i < |longer|
        ensures ContiguousAt(longer, i) && ChainedAt(longer, i) && SealedAt(digest, longer, i) {
        if i < |log| { assert ContiguousAt(log, i) && ChainedAt(log, i) && SealedAt(digest, log, i); }
      }
    }
    if Accepted(digest, longer) {
      assert ContiguousAt(longer, |log|) && ChainedAt(longer, |log|) && SealedAt(digest, longer, |log|);
    }
  }

  // A log is accepted exactly when it is the one that appending its own bodies builds.
  lemma {:induction false} AcceptedIffBuilt(digest: Digest, log: seq<Stored>)
    ensures Accepted(digest, log) <==> log == Built(digest, Bodies(log))
    decreases |log|
  {
    if log != [] {
      var before, e := log[..|log| - 1], log[|log| - 1];
      assert log == before + [e];
      AcceptedIffBuilt(digest, before);
      assert Bodies(log)[..|log| - 1] == Bodies(before);
      BuiltLength(digest, Bodies(before));
      if Accepted(digest, log) { PrefixAccepted(digest, log, |log| - 1); }
      if Accepted(digest, before) { AppendAccepted(digest, before, e); }
    }
  }

  lemma {:induction false} BuiltLength(digest: Digest, bodies: seq<Body>)
    ensures |Built(digest, bodies)| == |bodies|
  {
    if bodies != [] { BuiltLength(digest, bodies[..|bodies| - 1]); }
  }

  datatype Verdict =
    | Clean
    | NotContiguous(at: nat, sequence: int)
    | NotChained(at: nat)
    | HashMismatch(at: nat, sequence: int, expected: Hash, actual: Hash)

  class EventLog {
    const digest: Digest
    var events: seq<Stored>

    constructor (digest: Digest)
      ensures this.digest == digest && events == []
    {
      this.digest := digest;
      events := [];
    }

    function HeadHash(): Hash
      reads this
    {
      if events == [] then GENESIS else events[|events| - 1].eventHash
    }

    // append
    method Append(body: Body) returns (stored: Stored)
      modifies this`events
      ensures stored == Seal(digest, old(events), body)
      ensures events == old(events) + [stored]
      ensures Accepted(digest, old(events)) ==> Accepted(digest, events)
    {
      var head := HeadHash();
      stored := Stored(|events|, head, EventHash(digest, head, body), body);
      if Accepted(digest, events) { AppendAccepted(digest, events, stored); }
      events := events + [stored];
    }

    // from_stored: replaces the log only when every event checks out.
    method FromStored(stored: seq<Stored>) returns (verdict: Verdict)
      modifies this`events
      ensures verdict == OnePass(digest, stored, 0)
      ensures verdict.Clean? <==> Accepted(digest, stored)
      ensures events == if verdict.Clean? then stored else old(events)
    {
      var previous := GENESIS;
      for i := 0 to |stored|
        invariant previous == TipOf(stored[..i])
        invariant OnePass(digest, stored, 0) == OnePass(digest, stored, i)
      {
        if stored[i].sequence != i { OnePassDecides(digest, stored, 0); return NotContiguous(i, stored[i].sequence); }
        if stored[i].prevHash != previous { OnePassDecides(digest, stored, 0); return NotChained(i); }
        var recomputed := EventHash(digest, previous, stored[i].body);
        if recomputed != stored[i].eventHash {
          OnePassDecides(digest, stored, 0);
          return HashMismatch(i, i, recomputed, stored[i].eventHash);
        }
        previous := stored[i].eventHash;
      }
      OnePassDecides(digest, stored, 0);
      events := stored;
      verdict := Clean;
    }
  }

  // The first event from i on that is not good, with the first check it fails.
  function OnePass(digest: Digest, log: seq<Stored>, i: nat): Verdict
    requires i <= |log|
    decreases |log| - i
  {
    if i == |log| then Clean
    else if !ContiguousAt(log, i) then NotContiguous(i, log[i].sequence)
    else if !ChainedAt(log, i) then NotChained(i)
    else if !SealedAt(digest, log, i) then
      HashMismatch(i, log[i].sequence, EventHash(digest, TipOf(log[..i]), log[i].body), log[i].eventHash)
    else OnePass(digest, log, i + 1)
  }

  lemma {:induction false} OnePassDecides(digest: Digest, log: seq<Stored>, i: nat)
    requires i <= |log|
    ensures var v := OnePass(digest, log, i);
            if v.Clean? then forall k: nat :: i <= k < |log| ==> GoodAt(digest, log, k)
            else i <= v.at < |log| && !GoodAt(digest, log, v.at)
                 && forall k: nat :: i <= k < v.at ==> GoodAt(digest, log, k)
    ensures i == 0 ==> (OnePass(digest, log, i).Clean? <==> Accepted(digest, log))
    decreases |log| - i
  {
    if i < |log| && GoodAt(digest, log, i) { OnePassDecides(digest, log, i + 1); }
    AcceptedIffAllGood(digest, log);
  }

  lemma AcceptedIffAllGood(digest: Digest, log: seq<Stored>)
    ensures Accepted(digest, log) <==> forall k: nat :: k < |log| ==> GoodAt(digest, log, k)
  {
    if forall k: nat :: k < |log| ==> GoodAt(digest, log, k) {
      forall k: nat | k < |log| ensures ContiguousAt(log, k) && ChainedAt(log, k) && SealedAt(digest, log, k) {
        assert GoodAt(digest, log, k);
      }
    }
  }

  // replay_event_log: re-seals every body on a fresh log and compares the hashes only.
  method ReplayEventLog(digest: Digest, stored: seq<Stored>) returns (verdict: Verdict, log: EventLog)
    ensures fresh(log) && log.digest == digest && Accepted(digest, log.events)
    ensures verdict.Clean? || verdict.HashMismatch?
    ensures verdict.Clean? <==> SealedUpTo(digest, stored, |stored|)
    ensures verdict.Clean? ==> log.events == Built(digest, Bodies(stored))
    ensures verdict.HashMismatch? ==>
              && verdict.at < |stored| && SealedUpTo(digest, stored, verdict.at)
              && verdict.sequence == stored[verdict.at].sequence
              && verdict.expected == stored[verdict.at].eventHash
              && verdict.actual == EventHash(digest, TipOf(stored[..verdict.at]), stored[verdict.at].body)
              && verdict.actual != verdict.expected
  {
    hide EventHash;
    log := new EventLog(digest);
    for i := 0 to |stored|
      invariant fresh(log) && log.digest == digest && Accepted(digest, log.events)
      invariant SealedUpTo(digest, stored, i)
      invariant |log.events| == i && TipOf(log.events) == TipOf(stored[..i])
      invariant log.events == Built(digest, Bodies(stored)[..i])
    {
      var replayed := log.Append(stored[i].body);
      assert Bodies(stored)[..i + 1][..i] == Bodies(stored)[..i];
      if replayed.eventHash != stored[i].eventHash {
        assert !SealedAt(digest, stored, i);
        return HashMismatch(i, stored[i].sequence, stored[i].eventHash, replayed.eventHash), log;
      }
    }
    assert Bodies(stored)[..|stored|] == Bodies(stored);
    verdict := Clean;
  }

  // ------------------------------------------------ the publish gate

  // A game_events row.
  datatype Row = Row(eventType: string, sequence: int, phase: string, visibility: string,
                     actor: Value, payload: Value, prevHash: Hash, eventHash: Hash)

  // _event_body; the sequence number is part of what is hashed.
  function RowBody(row: Row): Body
  {
    map["event_type" := Text(row.eventType), "sequence" := Number(row.sequence), "phase" := Text(row.phase),
        "visibility" := Text(row.visibility), "actor_player_id" := row.actor, "payload" := row.payload]
  }

  function AsStored(row: Row): Stored
  {
    Stored(row.sequence, row.prevHash, row.eventHash, RowBody(row))
  }

  function AllStored(rows: seq<Row>): seq<Stored>
  {
    seq(|rows|, i requires 0 <= i < |rows| => AsStored(rows[i]))
  }

  // One game of _replay_hash_blockers: the links of the whole log first, then the hashes.
  method GameVerdict(digest: Digest, rows: seq<Row>) returns (verdict: Verdict)
    ensures verdict.Clean? <==> Accepted(digest, AllStored(rows))
    ensures verdict.NotContiguous? || verdict.NotChained? ==>
              && verdict.at < |rows| && LinkedUpTo(AllStored(rows), verdict.at)
              && (verdict.NotContiguous? <==> !ContiguousAt(AllStored(rows), verdict.at))
              && (verdict.NotContiguous? ==> verdict.sequence == rows[verdict.at].sequence)
              && (verdict.NotChained? ==> !ChainedAt(AllStored(rows), verdict.at))
    ensures verdict.HashMismatch? ==>
              && LinkedUpTo(AllStored(rows), |rows|)
              && verdict.at < |rows| && SealedUpTo(digest, AllStored(rows), verdict.at)
              && !SealedAt(digest, AllStored(rows), verdict.at)
              && verdict.sequence == verdict.at && verdict.expected == rows[verdict.at].eventHash
              && verdict.actual == EventHash(digest, TipOf(AllStored(rows)[..verdict.at]), RowBody(rows[verdict.at]))
  {
    ghost var log := AllStored(rows);
    var previous := GENESIS;
    for i := 0 to |rows|
      invariant previous == TipOf(log[..i])
      invariant LinkedUpTo(log, i)
    {
      if rows[i].sequence != i {
        assert !ContiguousAt(log, i);
        return NotContiguous(i, rows[i].sequence);
      }
      if rows[i].prevHash != previous {
        assert !ChainedAt(log, i);
        return NotChained(i);
      }
      previous := rows[i].eventHash;
    }
    var stored := AllStored(rows);
    var replayed: EventLog;
    verdict, replayed := ReplayEventLog(digest, stored);
    assert verdict.HashMismatch? ==> ContiguousAt(log, verdict.at);
  }

  // For rows: what is hashed is the previous hash with six columns under their names, the sequence
  // number among them.
  lemma AcceptedRowsMean(digest: Digest, rows: seq<Row>)
    ensures Accepted(digest, AllStored(rows)) <==> forall i: nat :: i < |rows| ==> RowFollows(digest, rows, i)
  {
    hide Accepted, RowFollows, Follows;
    AcceptedMeans(digest, AllStored(rows));
    forall i: nat | i < |rows| ensures Follows(digest, AllStored(rows), i) <==> RowFollows(digest, rows, i) {
      RowFollowsAsStored(digest, rows, i);
    }
  }

  predicate RowFollows(digest: Digest, rows: seq<Row>, i: nat)
    requires i < |rows|
  {
    var r := rows[i];
    && r.sequence == i
    && (if i == 0 then |r.prevHash| == 64 && forall c :: c in r.prevHash ==> c == '0'
        else r.prevHash == rows[i - 1].eventHash)
    && r.eventHash == digest(r.prevHash,
         map["payload" := r.payload, "actor_player_id" := r.actor, "visibility" := Text(r.visibility),
             "phase" := Text(r.phase), "sequence" := Number(r.sequence), "event_type" := Text(r.eventType)])
  }

  lemma RowFollowsAsStored(digest: Digest, rows: seq<Row>, i: nat)
    requires i < |rows|
    ensures Follows(digest, AllStored(rows), i) <==> RowFollows(digest, rows, i)
  {
    var r := rows[i];
    NothingExcluded(r);
    SameColumns(r);
    hide RowBody;
  }

  lemma SameColumns(r: Row)
    ensures RowBody(r) ==
         map["payload" := r.payload, "actor_player_id" := r.actor, "visibility" := Text(r.visibility),
             "phase" := Text(r.phase), "sequence" := Number(r.sequence), "event_type" := Text(r.eventType)]
  {
  }

  // The gate's two passes and the one pass of from_stored accept the same logs, and when they
  // refuse, the one pass never points past the event the gate points at.
  lemma VerifiersAgree(digest: Digest, log: seq<Stored>, gate: Verdict)
    requires gate.Clean? <==> Accepted(digest, log)
    requires !gate.Clean? ==> gate.at < |log| && !GoodAt(digest, log, gate.at)
    ensures OnePass(digest, log, 0).Clean? <==> gate.Clean?
    ensures !gate.Clean? ==> OnePass(digest, log, 0).at <= gate.at
  {
    OnePassDecides(digest, log, 0);
  }

  // ------------------------------------------------ what a tip hash pins down

  // Two accepted logs of game rows with the same tip hash are equal event by event, and so in
  // length.
  lemma {:induction false} TipDeterminesRows(digest: Digest, a: seq<Row>, b: seq<Row>)
    requires Injective(digest)
    requires Accepted(digest, AllStored(a)) && Accepted(digest, AllStored(b))
    requires a != [] && b != [] && TipOf(AllStored(a)) == TipOf(AllStored(b))
    ensures a == b
    decreases |a|
  {
    var x, y := AllStored(a), AllStored(b);
    var m, n := |a| - 1, |b| - 1;
    assert SealedAt(digest, x, m) && SealedAt(digest, y, n);
    assert ContiguousAt(x, m) && ContiguousAt(y, n) && ChainedAt(x, m) && ChainedAt(y, n);
    SameDigestSameRow(digest, a[m], b[n], TipOf(x[..m]), TipOf(y[..n]));
    assert m == n;
    PrefixAccepted(digest, x, m);
    PrefixAccepted(digest, y, n);
    assert x[..m] == AllStored(a[..m]) && y[..n] == AllStored(b[..n]);
    if m > 0 { TipDeterminesRows(digest, a[..m], b[..n]); }
    assert a == a[..m] + [a[m]] && b == b[..n] + [b[n]];
  }

  lemma SameDigestSameRow(digest: Digest, r: Row, s: Row, p: Hash, q: Hash)
    requires Injective(digest)
    requires r.prevHash == p && s.prevHash == q && r.eventHash == s.eventHash
    requires r.eventHash == EventHash(digest, p, RowBody(r)) && s.eventHash == EventHash(digest, q, RowBody(s))
    ensures r == s && p == q
  {
    NothingExcluded(r);
    NothingExcluded(s);
    var b, c := RowBody(r), RowBody(s);
    assert b == c;
    assert b["event_type"] == c["event_type"] && b["sequence"] == c["sequence"] && b["phase"] == c["phase"];
    assert b["visibility"] == c["visibility"] && b["actor_player_id"] == c["actor_player_id"]
           && b["payload"] == c["payload"];
  }

  lemma NothingExcluded(r: Row)
    ensures RowBody(r) - EXCLUDED == RowBody(r)
  {
  }

  // The digest maps something to the genesis hash.
  ghost predicate ReachesGenesis(digest: Digest)
  {
    exists p, b :: digest(p, b) == GENESIS
  }

  // Logs over arbitrary bodies: the same tip means the same log up to the keys the hash leaves
  // out, unless some digest is the genesis hash itself.
  lemma {:induction false} TipDeterminesLog(digest: Digest, a: seq<Stored>, b: seq<Stored>)
    requires Injective(digest) && Accepted(digest, a) && Accepted(digest, b) && TipOf(a) == TipOf(b)
    ensures |a| != |b| ==> ReachesGenesis(digest)
    ensures |a| == |b| ==> forall i: nat :: i < |a| ==>
              a[i].(body := map[]) == b[i].(body := map[]) && a[i].body - EXCLUDED == b[i].body - EXCLUDED
    decreases |a|
  {
    if a != [] && b != [] {
      var m, n := |a| - 1, |b| - 1;
      assert SealedAt(digest, a, m) && SealedAt(digest, b, n);
      assert ContiguousAt(a, m) && ContiguousAt(b, n) && ChainedAt(a, m) && ChainedAt(b, n);
      PrefixAccepted(digest, a, m);
      PrefixAccepted(digest, b, n);
      TipDeterminesLog(digest, a[..m], b[..n]);
      if m == n {
        forall i: nat | i < m
          ensures a[i].(body := map[]) == b[i].(body := map[]) && a[i].body - EXCLUDED == b[i].body - EXCLUDED
        {
          assert a[..m][i] == a[i] && b[..n][i] == b[i];
        }
      }
    } else if a != [] {
      LastIsDigest(digest, a);
    } else if b != [] {
      LastIsDigest(digest, b);
    }
  }

  lemma LastIsDigest(digest: Digest, log: seq<Stored>)
    requires Accepted(digest, log) && log != [] && TipOf(log) == GENESIS
    ensures ReachesGenesis(digest)
  {
    var m := |log| - 1;
    assert SealedAt(digest, log, m);
    assert digest(TipOf(log[..m]), log[m].body - EXCLUDED) == GENESIS;
  }

  // The keys the hash leaves out can be rewritten in any accepted log without being noticed.
  lemma ExcludedKeysAreFree(digest: Digest, log: seq<Stored>, i: nat, body: Body)
    requires Accepted(digest, log) && i < |log| && body - EXCLUDED == log[i].body - EXCLUDED
    ensures Accepted(digest, log[i := log[i].(body := body)])
  {
    var changed := log[i := log[i].(body := body)];
    forall k: nat | k < |log|
      ensures ContiguousAt(changed, k) && ChainedAt(changed, k) && SealedAt(digest, changed, k) {
      assert ContiguousAt(log, k) && ChainedAt(log, k) && SealedAt(digest, log, k);
      assert TipOf(changed[..k]) == TipOf(log[..k]);
    }
  }

  // Any other change of one event's body is noticed by the event's own hash.
  lemma HashedKeysAreNot(digest: Digest, log: seq<Stored>, i: nat, body: Body)
    requires Injective(digest) && Accepted(digest, log) && i < |log| && body - EXCLUDED != log[i].body - EXCLUDED
    ensures var changed := log[i := log[i].(body := body)];
            !SealedAt(digest, changed, i) && OnePass(digest, changed, 0).HashMismatch?
                && OnePass(digest, changed, 0).at == i
  {
    var changed := log[i := log[i].(body := body)];
    assert SealedAt(digest, log, i) && ContiguousAt(log, i) && ChainedAt(log, i);
    assert changed[..i] == log[..i];
    forall k: nat | k < i ensures GoodAt(digest, changed, k) {
      assert ContiguousAt(log, k) && ChainedAt(log, k) && SealedAt(digest, log, k);
      assert changed[..k] == log[..k];
    }
    OnePassDecides(digest, changed, 0);
    assert ContiguousAt(changed, i) && ChainedAt(changed, i);
    OnePassAt(digest, changed, 0, i);
  }

  lemma {:induction false} OnePassAt(digest: Digest, log: seq<Stored>, from: nat, i: nat)
    requires from <= i < |log|
    requires forall k: nat :: from <= k < i ==> GoodAt(digest, log, k)
    ensures OnePass(digest, log, from) == OnePass(digest, log, i)
    decreases i - from
  {
    if from < i {
      assert GoodAt(digest, log, from);
      OnePassAt(digest, log, from + 1, i);
    }
  }
}
