// The recursive privacy guards over JSON payloads: the ranked guard that raises, the auditor that
// collects, the publish-gate collector, and the anonymity check.
module Privacy {
  import opened Options

  // A stored payload value.  Dictionaries keep insertion order.
  datatype Json =
    | Null
    | Bool(b: bool)
    | Num(n: int)
    | Str(s: string)
    | List(items: seq<Json>)
    | Tuple(items: seq<Json>)
    | Dict(fields: seq<Field>)

  datatype Field = Field(key: string, value: Json)

  // One step into a value: a dictionary key or a list index.
  datatype Part = Key(key: string) | Index(i: nat)

  type Path = seq<Part>

  const HUMAN_IDENTITY_KEYS: set<string> :=
    {"is_human", "controller_type", "seat_kind", "occupant_principal_id", "occupant_user_id",
     "human_player_id", "takeover", "taken_over_at_phase", "takeover_agent_build_id"}

  const MODEL_IDENTITY_KEYS: set<string> :=
    {"agent_build_id", "model_id", "model_name", "provider", "provider_name", "gauntlet_clone_index", "clone_index"}

  const IDENTITY_MARKER_KEYS: set<string> := HUMAN_IDENTITY_KEYS + MODEL_IDENTITY_KEYS

  const FORBIDDEN_PAYLOAD_KEYS: set<string> :=
    {"agent_build_id", "model_id", "model_name", "provider", "provider_name", "rating", "ratings", "win_rate",
     "win_rates", "elo", "openskill_mu", "openskill_sigma", "mu", "sigma", "gauntlet_clone_index", "clone_index",
     "role", "faction"} + HUMAN_IDENTITY_KEYS

  // Roles and factions may appear in a published log: they are revealed at the end of a game.
  const PUBLISH_FORBIDDEN_PAYLOAD_KEYS: set<string> := FORBIDDEN_PAYLOAD_KEYS - {"role", "faction"}

  const GAME_ID_KEYS: set<string> := {"game_id", "game_public_id"}

  // What a walker objects to: a forbidden key, or (ranked guard) a reference to another game.
  datatype Rules = Rules(forbidden: set<string>, ownGame: Option<string>)

  function RankedRules(ownGame: string): Rules { Rules(FORBIDDEN_PAYLOAD_KEYS, Some(ownGame)) }

  predicate ForeignGame(r: Rules, f: Field) {
    r.ownGame.Some? && f.key in GAME_ID_KEYS && f.value.Str? && f.value.s != r.ownGame.value
  }

  predicate Offends(r: Rules, f: Field) {
    f.key in r.forbidden || ForeignGame(r, f)
  }

  predicate Sequence(v: Json) { v.List? || v.Tuple? }

  // ------------------------------------------------ the guard: first offence, depth first

  function Walk(v: Json, r: Rules, at: Path): Option<Path>
    decreases v, 0
  {
    match v
    case Dict(fields) => WalkFields(fields, r, at)
    case List(items) => WalkItems(items, r, at, 0)
    case Tuple(items) => WalkItems(items, r, at, 0)
    case _ => None
  }

  function WalkFields(fields: seq<Field>, r: Rules, at: Path): Option<Path>
    decreases fields, 0
  {
    if fields == [] then None
    else
      var f := fields[0];
      var sub := at + [Key(f.key)];
      if Offends(r, f) then Some(sub)
      else
        var inner := Walk(f.value, r, sub);
        if inner.Some? then inner else WalkFields(fields[1..], r, at)
  }

  function WalkItems(items: seq<Json>, r: Rules, at: Path, index: nat): Option<Path>
    decreases items, 0
  {
    if items == [] then None
    else
      var inner := Walk(items[0], r, at + [Index(index)]);
      if inner.Some? then inner else WalkItems(items[1..], r, at, index + 1)
  }

  // ------------------------------------------------ the auditor: every offence, in the same order

  datatype Finding = Finding(path: Path, value: Json)

  function Collect(v: Json, r: Rules, at: Path): seq<Finding>
    decreases v, 0
  {
    match v
    case Dict(fields) => CollectFields(fields, r, at)
    case List(items) => CollectItems(items, r, at, 0)
    case Tuple(items) => CollectItems(items, r, at, 0)
    case _ => []
  }

  function CollectFields(fields: seq<Field>, r: Rules, at: Path): seq<Finding>
    decreases fields, 0
  {
    if fields == [] then []
    else
      var f := fields[0];
      var sub := at + [Key(f.key)];
      (if Offends(r, f) then [Finding(sub, f.value)] else [])
      + Collect(f.value, r, sub) + CollectFields(fields[1..], r, at)
  }

  function CollectItems(items: seq<Json>, r: Rules, at: Path, index: nat): seq<Finding>
    decreases items, 0
  {
    if items == [] then []
    else Collect(items[0], r, at + [Index(index)]) + CollectItems(items[1..], r, at, index + 1)
  }

  // The guard raises exactly when the auditor reports something, and at the path it reports first.
  lemma {:induction false} GuardIsFirstFinding(v: Json, r: Rules, at: Path)
    ensures Walk(v, r, at) == FirstPath(Collect(v, r, at))
    decreases v, 0
  {
    match v
    case Dict(fields) => GuardIsFirstField(fields, r, at);
    case List(items) => GuardIsFirstItem(items, r, at, 0);
    case Tuple(items) => GuardIsFirstItem(items, r, at, 0);
    case _ =>
  }

  function FirstPath(fs: seq<Finding>): Option<Path> {
    if fs == [] then None else Some(fs[0].path)
  }

  lemma {:induction false} GuardIsFirstField(fields: seq<Field>, r: Rules, at: Path)
    ensures WalkFields(fields, r, at) == FirstPath(CollectFields(fields, r, at))
    decreases fields, 0
  {
    if fields != [] {
      GuardIsFirstFinding(fields[0].value, r, at + [Key(fields[0].key)]);
      GuardIsFirstField(fields[1..], r, at);
    }
  }

  lemma {:induction false} GuardIsFirstItem(items: seq<Json>, r: Rules, at: Path, index: nat)
    ensures WalkItems(items, r, at, index) == FirstPath(CollectItems(items, r, at, index))
    decreases items, 0
  {
    if items != [] {
      GuardIsFirstFinding(items[0], r, at + [Index(index)]);
      GuardIsFirstItem(items[1..], r, at, index + 1);
    }
  }

  // ------------------------------------------------ what a path names

  // The field a path ends in, if it ends in one: an independent reading of "occurrence".
  function FieldAt(v: Json, p: Path): Option<Field>
    decreases |p|
  {
    if p == [] then None
    else
      match p[0]
      case Key(k) =>
        if v.Dict? && exists i :: 0 <= i < |v.fields| && v.fields[i].key == k then
          var f := v.fields[FieldIndex(v.fields, k)];
          if |p| == 1 then Some(f) else FieldAt(f.value, p[1..])
        else None
      case Index(i) =>
        if Sequence(v) && i < |v.items| then FieldAt(v.items[i], p[1..]) else None
  }

  function FieldIndex(fields: seq<Field>, k: string): (i: nat)
    requires exists i :: 0 <= i < |fields| && fields[i].key == k
    ensures i < |fields| && fields[i].key == k
  {
    if fields[0].key == k then 0 else FieldIndex(fields[1..], k) + 1
  }

  // Keys of every dictionary are distinct, as in a real dict.
  predicate DistinctKeys(v: Json)
    decreases v
  {
    match v
    case Dict(fields) =>
      && (forall i, j :: 0 <= i < j < |fields| ==> fields[i].key != fields[j].key)
      && (forall i :: 0 <= i < |fields| ==> DistinctKeys(fields[i].value))
    case List(items) => forall i :: 0 <= i < |items| ==> DistinctKeys(items[i])
    case Tuple(items) => forall i :: 0 <= i < |items| ==> DistinctKeys(items[i])
    case _ => true
  }

  predicate OffenceAt(v: Json, r: Rules, p: Path) {
    FieldAt(v, p).Some? && Offends(r, FieldAt(v, p).value)
  }

  predicate Reported(fs: seq<Finding>, p: Path) {
    exists i :: 0 <= i < |fs| && fs[i].path == p
  }

  predicate NoRepeats(fs: seq<Finding>) {
    forall i, j :: 0 <= i < j < |fs| ==> fs[i].path != fs[j].path
  }

  predicate Below(fs: seq<Finding>, at: Path) {
    forall i :: 0 <= i < |fs| ==> at < fs[i].path
  }

  lemma ReportedInConcat(a: seq<Finding>, b: seq<Finding>, p: Path)
    ensures Reported(a + b, p) <==> Reported(a, p) || Reported(b, p)
  {
    if Reported(a, p) {
      var i :| 0 <= i < |a| && a[i].path == p;
      assert (a + b)[i].path == p;
    }
    if Reported(b, p) {
      var i :| 0 <= i < |b| && b[i].path == p;
      assert (a + b)[|a| + i].path == p;
    }
  }

  // Reports come strictly below the value they are about.
  lemma {:induction false} CollectBelow(v: Json, r: Rules, at: Path)
    ensures Below(Collect(v, r, at), at)
    decreases v, 0
  {
    match v
    case Dict(fields) => CollectFieldsBelow(fields, r, at);
    case List(items) => CollectItemsBelow(items, r, at, 0);
    case Tuple(items) => CollectItemsBelow(items, r, at, 0);
    case _ =>
  }

  lemma {:induction false} CollectFieldsBelow(fields: seq<Field>, r: Rules, at: Path)
    ensures Below(CollectFields(fields, r, at), at)
    ensures forall i :: 0 <= i < |CollectFields(fields, r, at)| ==>
              exists j :: 0 <= j < |fields| && CollectFields(fields, r, at)[i].path[|at|] == Key(fields[j].key)
    decreases fields, 0
  {
    if fields != [] {
      var f := fields[0];
      var sub := at + [Key(f.key)];
      CollectBelow(f.value, r, sub);
      CollectFieldsBelow(fields[1..], r, at);
      var own := if Offends(r, f) then [Finding(sub, f.value)] else [];
      var inner, rest := Collect(f.value, r, sub), CollectFields(fields[1..], r, at);
      forall i | 0 <= i < |own + inner + rest|
        ensures at < (own + inner + rest)[i].path
        ensures exists j :: 0 <= j < |fields| && (own + inner + rest)[i].path[|at|] == Key(fields[j].key)
      {
        if i < |own| + |inner| {
          assert sub <= (own + inner)[i].path;
          assert (own + inner + rest)[i].path[|at|] == sub[|at|] == Key(fields[0].key);
        } else {
          var k := i - |own| - |inner|;
          var j :| 0 <= j < |fields[1..]| && rest[k].path[|at|] == Key(fields[1..][j].key);
          assert fields[j + 1] == fields[1..][j];
        }
      }
    }
  }

  lemma {:induction false} CollectItemsBelow(items: seq<Json>, r: Rules, at: Path, index: nat)
    ensures Below(CollectItems(items, r, at, index), at)
    ensures forall i :: 0 <= i < |CollectItems(items, r, at, index)| ==>
              var part := CollectItems(items, r, at, index)[i].path[|at|];
              part.Index? && index <= part.i < index + |items|
    decreases items, 0
  {
    if items != [] {
      var sub := at + [Index(index)];
      CollectBelow(items[0], r, sub);
      CollectItemsBelow(items[1..], r, at, index + 1);
      var inner, rest := Collect(items[0], r, sub), CollectItems(items[1..], r, at, index + 1);
      var all: seq<Finding> := inner + rest;
      forall i | 0 <= i < |all|
        ensures at < all[i].path
        ensures all[i].path[|at|].Index? && index <= all[i].path[|at|].i < index + |items|
      {
        if i < |inner| {
          assert sub <= inner[i].path;
          assert all[i].path[|at|] == sub[|at|];
        } else {
          assert all[i] == rest[i - |inner|];
        }
      }
    }
  }

  // ------------------------------------------------ one finding per offence

  // What the fields from some point on, or the items from `index` on, should report.
  predicate FieldOffence(fields: seq<Field>, r: Rules, p: Path) {
    OffenceAt(Dict(fields), r, p)
  }

  predicate ItemOffence(items: seq<Json>, index: nat, r: Rules, p: Path) {
    p != [] && p[0].Index? && index <= p[0].i < index + |items| && OffenceAt(items[p[0].i - index], r, p[1..])
  }

  lemma FieldOffenceSplits(fields: seq<Field>, r: Rules, p: Path)
    requires fields != []
    ensures FieldOffence(fields, r, p) <==>
            if p != [] && p[0] == Key(fields[0].key) then
              (if |p| == 1 then Offends(r, fields[0]) else OffenceAt(fields[0].value, r, p[1..]))
            else FieldOffence(fields[1..], r, p)
  {
    var rest := fields[1..];
    if p != [] && p[0].Key? && p[0] != Key(fields[0].key) {
      if exists i :: 0 <= i < |rest| && rest[i].key == p[0].key {
        var i :| 0 <= i < |rest| && rest[i].key == p[0].key;
        assert fields[i + 1].key == p[0].key;
        assert fields[FieldIndex(fields, p[0].key)] == rest[FieldIndex(rest, p[0].key)];
      } else {
        assert forall i :: 1 <= i < |fields| ==> fields[i] == rest[i - 1];
      }
    }
    if p != [] && p[0] == Key(fields[0].key) {
      assert fields[0].key == p[0].key;
    }
  }

  lemma {:induction false} CollectExact(v: Json, r: Rules, at: Path, p: Path)
    requires DistinctKeys(v)
    ensures Reported(Collect(v, r, at), at + p) <==> OffenceAt(v, r, p)
    decreases v, 0
  {
    match v
    case Dict(fields) => CollectFieldsExact(fields, r, at, p);
    case List(items) => CollectItemsExact(items, r, at, 0, p);
    case Tuple(items) => CollectItemsExact(items, r, at, 0, p);
    case _ =>
  }

  // Nothing below `sub` reports a path that leaves it.
  lemma NotBelow(fs: seq<Finding>, sub: Path, q: Path)
    requires Below(fs, sub) && !(sub < q)
    ensures !Reported(fs, q)
  {
  }

  lemma LeavesBranch(at: Path, part: Part, p: Path)
    requires p == [] || p[0] != part
    ensures at + [part] != at + p && !(at + [part] < at + p)
  {
    assert (at + [part])[|at|] == part;
    assert p != [] ==> (at + p)[|at|] == p[0];
  }

  lemma {:induction false} CollectFieldsExact(fields: seq<Field>, r: Rules, at: Path, p: Path)
    requires DistinctKeys(Dict(fields))
    ensures Reported(CollectFields(fields, r, at), at + p) <==> FieldOffence(fields, r, p)
    decreases fields, 0
  {
    if fields != [] {
      var f := fields[0];
      var sub := at + [Key(f.key)];
      var own := if Offends(r, f) then [Finding(sub, f.value)] else [];
      var inner, rest := Collect(f.value, r, sub), CollectFields(fields[1..], r, at);
      ReportedInConcat(own + inner, rest, at + p);
      ReportedInConcat(own, inner, at + p);
      FieldOffenceSplits(fields, r, p);
      CollectBelow(f.value, r, sub);
      if p != [] && p[0] == Key(f.key) {
        HeadKeyNotInRest(fields, r, at, p);
        assert at + p == sub + p[1..];
        if |p| == 1 {
          assert at + p == sub;
          NotBelow(inner, sub, at + p);
          if Offends(r, f) { assert own[0].path == at + p; }
        } else {
          CollectExact(f.value, r, sub, p[1..]);
          assert at + p != sub;
        }
      } else {
        CollectFieldsExact(fields[1..], r, at, p);
        LeavesBranch(at, Key(f.key), p);
        NotBelow(inner, sub, at + p);
      }
    }
  }

  lemma HeadKeyNotInRest(fields: seq<Field>, r: Rules, at: Path, p: Path)
    requires fields != [] && p != [] && p[0] == Key(fields[0].key)
    requires forall i, j :: 0 <= i < j < |fields| ==> fields[i].key != fields[j].key
    ensures !Reported(CollectFields(fields[1..], r, at), at + p)
  {
    var rest := CollectFields(fields[1..], r, at);
    CollectFieldsBelow(fields[1..], r, at);
    forall i | 0 <= i < |rest| ensures rest[i].path != at + p {
      var j :| 0 <= j < |fields[1..]| && rest[i].path[|at|] == Key(fields[1..][j].key);
      assert fields[1..][j] == fields[j + 1];
      assert (at + p)[|at|] == p[0];
    }
  }

  lemma {:induction false} CollectItemsExact(items: seq<Json>, r: Rules, at: Path, index: nat, p: Path)
    requires forall i :: 0 <= i < |items| ==> DistinctKeys(items[i])
    ensures Reported(CollectItems(items, r, at, index), at + p) <==> ItemOffence(items, index, r, p)
    decreases items, 0
  {
    if items != [] {
      var sub := at + [Index(index)];
      var inner, rest := Collect(items[0], r, sub), CollectItems(items[1..], r, at, index + 1);
      ReportedInConcat(inner, rest, at + p);
      CollectBelow(items[0], r, sub);
      CollectItemsExact(items[1..], r, at, index + 1, p);
      if p != [] && p[0] == Index(index) {
        assert at + p == sub + p[1..];
        CollectExact(items[0], r, sub, p[1..]);
      } else {
        LeavesBranch(at, Index(index), p);
        NotBelow(inner, sub, at + p);
      }
    }
  }

  lemma {:induction false} CollectOnce(v: Json, r: Rules, at: Path)
    requires DistinctKeys(v)
    ensures NoRepeats(Collect(v, r, at))
    decreases v, 0
  {
    match v
    case Dict(fields) => CollectFieldsOnce(fields, r, at);
    case List(items) => CollectItemsOnce(items, r, at, 0);
    case Tuple(items) => CollectItemsOnce(items, r, at, 0);
    case _ =>
  }

  // Findings whose paths continue `at` with different parts cannot repeat one another.
  lemma ConcatOnce(a: seq<Finding>, b: seq<Finding>)
    requires NoRepeats(a) && NoRepeats(b)
    requires forall i, j :: 0 <= i < |a| && 0 <= j < |b| ==> a[i].path != b[j].path
    ensures NoRepeats(a + b)
  {
  }

  lemma {:induction false} CollectFieldsOnce(fields: seq<Field>, r: Rules, at: Path)
    requires DistinctKeys(Dict(fields))
    ensures NoRepeats(CollectFields(fields, r, at))
    decreases fields, 0
  {
    if fields != [] {
      var f := fields[0];
      var sub := at + [Key(f.key)];
      var own: seq<Finding> := if Offends(r, f) then [Finding(sub, f.value)] else [];
      var inner, rest := Collect(f.value, r, sub), CollectFields(fields[1..], r, at);
      CollectOnce(f.value, r, sub);
      CollectBelow(f.value, r, sub);
      CollectFieldsOnce(fields[1..], r, at);
      ConcatOnce(own, inner);
      forall i, j | 0 <= i < |own + inner| && 0 <= j < |rest| ensures (own + inner)[i].path != rest[j].path {
        var p := (own + inner)[i].path;
        assert sub <= p && p[|at|] == sub[|at|];
        CollectFieldsBelow(fields[1..], r, at);
        var k :| 0 <= k < |fields[1..]| && rest[j].path[|at|] == Key(fields[1..][k].key);
        assert fields[1..][k] == fields[k + 1];
      }
      ConcatOnce(own + inner, rest);
    }
  }

  lemma {:induction false} CollectItemsOnce(items: seq<Json>, r: Rules, at: Path, index: nat)
    requires forall i :: 0 <= i < |items| ==> DistinctKeys(items[i])
    ensures NoRepeats(CollectItems(items, r, at, index))
    decreases items, 0
  {
    if items != [] {
      var sub := at + [Index(index)];
      var inner, rest := Collect(items[0], r, sub), CollectItems(items[1..], r, at, index + 1);
      CollectOnce(items[0], r, sub);
      CollectBelow(items[0], r, sub);
      CollectItemsOnce(items[1..], r, at, index + 1);
      CollectItemsBelow(items[1..], r, at, index + 1);
      forall i, j | 0 <= i < |inner| && 0 <= j < |rest| ensures inner[i].path != rest[j].path {
        assert sub < inner[i].path && inner[i].path[|at|] == sub[|at|];
      }
      ConcatOnce(inner, rest);
    }
  }

  // The auditor reports every offending key occurrence of a payload exactly once: the reported
  // paths are pairwise different and are exactly the paths that end in an offending field.
  lemma AuditIsExact(v: Json, r: Rules)
    requires DistinctKeys(v)
    ensures NoRepeats(Collect(v, r, []))
    ensures forall p :: Reported(Collect(v, r, []), p) <==> OffenceAt(v, r, p)
  {
    CollectOnce(v, r, []);
    forall p ensures Reported(Collect(v, r, []), p) <==> OffenceAt(v, r, p) {
      CollectExact(v, r, [], p);
      assert [] + p == p;
    }
  }

  // For the ranked audit: a forbidden key anywhere, or a game id that names another game.
  lemma RankedAuditIsExact(v: Json, ownGame: string, p: Path)
    requires DistinctKeys(v)
    ensures Reported(Collect(v, RankedRules(ownGame), []), p) <==>
              && FieldAt(v, p).Some?
              && var f := FieldAt(v, p).value;
              || f.key in FORBIDDEN_PAYLOAD_KEYS
              || (f.key in {"game_id", "game_public_id"} && f.value.Str? && f.value.s != ownGame)
  {
    AuditIsExact(v, RankedRules(ownGame));
  }

  // ------------------------------------------------ whole observations

  datatype Entry = Entry(sequence: nat, actor: Option<string>, payload: Json)

  datatype Observation = Observation(gameId: string, publicEvents: seq<Entry>, privateEvents: seq<Entry>,
                                     memory: string)

  // Where in an observation a leak was found.
  datatype Place =
    | PublicEvent(sequence: nat, path: Path)
    | PrivateEvent(sequence: nat, path: Path)
    | Memory(token: string)

  // What a finding tells of the leaked value: its type and size, or the token found.
  datatype Redacted = Shape(typeName: string, size: Option<nat>) | HoldsToken(token: string)

  datatype LeakFinding = LeakFinding(place: Place, redacted: Redacted, observedBy: string, owner: Option<string>)

  // _redact
  function Redact(v: Json): Redacted {
    match v
    case Null => Shape("NoneType", None)
    case Bool(_) => Shape("bool", None)
    case Num(_) => Shape("int", None)
    case Str(s) => Shape("str", Some(|s|))
    case List(items) => Shape("list", Some(|items|))
    case Tuple(items) => Shape("tuple", Some(|items|))
    case Dict(fields) => Shape("dict", Some(|fields|))
  }

  // FORBIDDEN_MEMORY_TOKENS in whatever order the set iterates.
  const MEMORY_TOKENS: seq<string> := ["agent_build_id", "model_id", "gauntlet_clone_index", "openskill"]

  function Lower(text: string): string {
    seq(|text|, i requires 0 <= i < |text| => if 'A' <= text[i] <= 'Z' then text[i] - 'A' + 'a' else text[i])
  }

  predicate Contains(text: string, token: string) {
    exists i :: 0 <= i <= |text| && OccursAt(text, token, i)
  }

  predicate OccursAt(text: string, token: string, i: nat)
    requires i <= |text|
  {
    token <= text[i..]
  }

  function PlaceOf(public: bool, sequence: nat, path: Path): Place {
    if public then PublicEvent(sequence, path) else PrivateEvent(sequence, path)
  }

  // assert_ranked_observation_safe: the place it raises at, if it raises.
  function GuardEvents(events: seq<Entry>, public: bool, own: string): Option<Place>
    decreases |events|
  {
    if events == [] then None
    else
      var hit := Walk(events[0].payload, RankedRules(own), []);
      if hit.Some? then Some(PlaceOf(public, events[0].sequence, hit.value)) else GuardEvents(events[1..], public, own)
  }

  function GuardMemory(text: string, tokens: seq<string>): Option<Place>
    decreases |tokens|
  {
    if tokens == [] then None
    else if Contains(Lower(text), tokens[0]) then Some(Memory(tokens[0]))
    else GuardMemory(text, tokens[1..])
  }

  function Guard(obs: Observation): Option<Place> {
    var a := GuardEvents(obs.publicEvents, true, obs.gameId);
    if a.Some? then a
    else
      var b := GuardEvents(obs.privateEvents, false, obs.gameId);
      if b.Some? then b else GuardMemory(obs.memory, MEMORY_TOKENS)
  }

  function PayloadLeak(f: Finding, public: bool, e: Entry, seat: string): LeakFinding {
    LeakFinding(PlaceOf(public, e.sequence, f.path), Redact(f.value), seat, e.actor)
  }

  function MemoryLeak(token: string, seat: string): LeakFinding {
    LeakFinding(Memory(token), HoldsToken(token), seat, None)
  }

  function Leaks(fs: seq<Finding>, public: bool, e: Entry, seat: string): (r: seq<LeakFinding>)
    ensures |r| == |fs|
  {
    seq(|fs|, i requires 0 <= i < |fs| => PayloadLeak(fs[i], public, e, seat))
  }

  function AuditEvents(events: seq<Entry>, public: bool, own: string, seat: string): seq<LeakFinding>
    decreases |events|
  {
    if events == [] then []
    else Leaks(Collect(events[0].payload, RankedRules(own), []), public, events[0], seat)
         + AuditEvents(events[1..], public, own, seat)
  }

  function AuditMemory(text: string, tokens: seq<string>, seat: string): seq<LeakFinding>
    decreases |tokens|
  {
    if tokens == [] then []
    else (if Contains(Lower(text), tokens[0]) then [MemoryLeak(tokens[0], seat)] else [])
         + AuditMemory(text, tokens[1..], seat)
  }

  function Audit(obs: Observation, seat: string): seq<LeakFinding> {
    AuditEvents(obs.publicEvents, true, obs.gameId, seat)
    + AuditEvents(obs.privateEvents, false, obs.gameId, seat)
    + AuditMemory(obs.memory, MEMORY_TOKENS, seat)
  }

  function FirstPlace(leaks: seq<LeakFinding>): Option<Place> {
    if leaks == [] then None else Some(leaks[0].place)
  }

  lemma {:induction false} GuardEventsFirst(events: seq<Entry>, public: bool, own: string, seat: string)
    ensures GuardEvents(events, public, own) == FirstPlace(AuditEvents(events, public, own, seat))
    decreases |events|
  {
    if events != [] {
      GuardIsFirstFinding(events[0].payload, RankedRules(own), []);
      GuardEventsFirst(events[1..], public, own, seat);
    }
  }

  lemma {:induction false} GuardMemoryFirst(text: string, tokens: seq<string>, seat: string)
    ensures GuardMemory(text, tokens) == FirstPlace(AuditMemory(text, tokens, seat))
    decreases |tokens|
  {
    if tokens != [] { GuardMemoryFirst(text, tokens[1..], seat); }
  }

  // On every observation the ranked guard raises exactly when the auditor's list is non-empty, and
  // at the place the list names first.
  lemma GuardAndAuditorAgree(obs: Observation, seat: string)
    ensures Guard(obs) == FirstPlace(Audit(obs, seat))
  {
    GuardEventsFirst(obs.publicEvents, true, obs.gameId, seat);
    GuardEventsFirst(obs.privateEvents, false, obs.gameId, seat);
    GuardMemoryFirst(obs.memory, MEMORY_TOKENS, seat);
  }

  // ------------------------------------------------ what a finding tells

  // A payload finding names its event, the seat that saw it and the owner, and of the leaked value
  // what is left of it.
  lemma {:induction false} LeakNamesItsEvent(events: seq<Entry>, public: bool, own: string, seat: string,
                                             l: LeakFinding)
    requires l in AuditEvents(events, public, own, seat)
    ensures exists e, f ::
              && e in events && f in Collect(e.payload, RankedRules(own), [])
              && l.place == (if public then PublicEvent(e.sequence, f.path) else PrivateEvent(e.sequence, f.path))
              && l.redacted == Redact(f.value) && l.observedBy == seat && l.owner == e.actor
    decreases |events|
  {
    var e, rest := events[0], events[1..];
    var fs := Collect(e.payload, RankedRules(own), []);
    if l in AuditEvents(rest, public, own, seat) {
      LeakNamesItsEvent(rest, public, own, seat, l);
    } else {
      var i :| 0 <= i < |fs| && Leaks(fs, public, e, seat)[i] == l;
      assert e in events && fs[i] in fs;
    }
  }

  // Two leaked values look the same in a finding iff they are of one type and, where they have a
  // size, of one size: their contents never show.
  lemma RedactionTellsTypeAndSize(v: Json, w: Json)
    ensures Redact(v) == Redact(w) <==>
              match (v, w)
              case (Null, Null) => true
              case (Bool(_), Bool(_)) => true
              case (Num(_), Num(_)) => true
              case (Str(a), Str(b)) => |a| == |b|
              case (List(a), List(b)) => |a| == |b|
              case (Tuple(a), Tuple(b)) => |a| == |b|
              case (Dict(a), Dict(b)) => |a| == |b|
              case _ => false
  {
  }

  // The token stands in the text, in capitals or not.
  predicate SpeltIn(text: string, token: string) {
    exists i :: 0 <= i <= |text| - |token| && SpeltAt(text, token, i)
  }

  predicate SpeltAt(text: string, token: string, i: nat)
    requires i + |token| <= |text|
  {
    forall j :: 0 <= j < |token| ==> SameLetter(text[i + j], token[j])
  }

  predicate SameLetter(c: char, small: char) {
    if 'A' <= c <= 'Z' then small == c - 'A' + 'a' else small == c
  }

  // A token is reported iff it is one of the four and the memory spells it somewhere.
  lemma MemoryIsSearched(text: string, seat: string, token: string)
    ensures (exists l :: l in AuditMemory(text, MEMORY_TOKENS, seat) && l.place == Memory(token)) <==>
              && token in {"agent_build_id", "model_id", "gauntlet_clone_index", "openskill"}
              && SpeltIn(text, token)
  {
    TokenReported(text, MEMORY_TOKENS, seat, token);
    ContainsSpelt(text, token);
  }

  lemma {:induction false} TokenReported(text: string, tokens: seq<string>, seat: string, token: string)
    ensures (exists l :: l in AuditMemory(text, tokens, seat) && l.place == Memory(token)) <==>
              token in tokens && Contains(Lower(text), token)
    decreases |tokens|
  {
    hide Contains, Lower;
    if tokens != [] {
      var head := if Contains(Lower(text), tokens[0]) then [MemoryLeak(tokens[0], seat)] else [];
      var rest := AuditMemory(text, tokens[1..], seat);
      TokenReported(text, tokens[1..], seat, token);
      assert forall l :: l in AuditMemory(text, tokens, seat) <==> l in head || l in rest;
      assert head != [] ==> head[0] in head;
    }
  }

  lemma ContainsSpelt(text: string, token: string)
    ensures Contains(Lower(text), token) <==> SpeltIn(text, token)
  {
    var low := Lower(text);
    forall i | 0 <= i <= |text| - |token| ensures OccursAt(low, token, i) <==> SpeltAt(text, token, i) {
      if OccursAt(low, token, i) {
        forall j | 0 <= j < |token| ensures SameLetter(text[i + j], token[j]) { assert low[i..][j] == token[j]; }
      }
      if SpeltAt(text, token, i) {
        forall j | 0 <= j < |token| ensures low[i..][j] == token[j] { assert SameLetter(text[i + j], token[j]); }
        assert low[i..][..|token|] == token;
      }
    }
  }

  // ------------------------------------------------ the auditor's shared findings list

  class AuditLog {
    var findings: seq<LeakFinding>

    constructor ()
      ensures findings == []
    {
      findings := [];
    }

    // _collect_payload: appends to the list in place, recursing through dicts and lists.
    method CollectPayload(v: Json, own: string, at: Path, public: bool, e: Entry, seat: string)
      modifies this
      ensures findings == old(findings) + Leaks(Collect(v, RankedRules(own), at), public, e, seat)
      decreases v, 1
    {
      if v.Dict? {
        CollectDict(v, own, at, public, e, seat);
      } else if Sequence(v) {
        CollectSequence(v, own, at, public, e, seat);
      } else {
        assert Leaks([], public, e, seat) == [];
      }
    }

    method CollectDict(v: Json, own: string, at: Path, public: bool, e: Entry, seat: string)
      requires v.Dict?
      modifies this
      ensures findings == old(findings) + Leaks(CollectFields(v.fields, RankedRules(own), at), public, e, seat)
      decreases v, 0
    {
      hide Leaks, CollectFields, Collect, RankedRules, Offends;
      var r := RankedRules(own);
      var i := 0;
      assert v.fields[0..] == v.fields;
      while i < |v.fields|
        invariant 0 <= i <= |v.fields|
        invariant findings + Leaks(CollectFields(v.fields[i..], r, at), public, e, seat)
                  == old(findings) + Leaks(CollectFields(v.fields, r, at), public, e, seat)
      {
        var f := v.fields[i];
        var sub := at + [Key(f.key)];
        ghost var before := findings;
        var own' := if Offends(r, f) then [PayloadLeak(Finding(sub, f.value), public, e, seat)] else [];
        findings := findings + own';
        CollectPayload(f.value, own, sub, public, e, seat);
        CollectFieldsHead(v.fields, i, r, at, public, e, seat);
        Assoc(before, own', Leaks(Collect(f.value, r, sub), public, e, seat),
              Leaks(CollectFields(v.fields[i + 1..], r, at), public, e, seat));
        i := i + 1;
      }
      NoFieldsNoLeaks(v.fields[i..], r, at, public, e, seat);
    }

    method CollectSequence(v: Json, own: string, at: Path, public: bool, e: Entry, seat: string)
      requires Sequence(v)
      modifies this
      ensures findings == old(findings) + Leaks(CollectItems(v.items, RankedRules(own), at, 0), public, e, seat)
      decreases v, 0
    {
      hide Leaks, CollectItems, Collect, RankedRules;
      var r := RankedRules(own);
      var i := 0;
      assert v.items[0..] == v.items;
      while i < |v.items|
        invariant 0 <= i <= |v.items|
        invariant findings + Leaks(CollectItems(v.items[i..], r, at, i), public, e, seat)
                  == old(findings) + Leaks(CollectItems(v.items, r, at, 0), public, e, seat)
      {
        ghost var before := findings;
        CollectPayload(v.items[i], own, at + [Index(i)], public, e, seat);
        CollectItemsHead(v.items, i, r, at, public, e, seat);
        Assoc(before, [], Leaks(Collect(v.items[i], r, at + [Index(i)]), public, e, seat),
              Leaks(CollectItems(v.items[i + 1..], r, at, i + 1), public, e, seat));
        i := i + 1;
      }
      NoItemsNoLeaks(v.items[i..], i, r, at, public, e, seat);
    }

    // _collect_memory
    method CollectMemory(text: string, seat: string)
      modifies this
      ensures findings == old(findings) + AuditMemory(text, MEMORY_TOKENS, seat)
    {
      hide Contains, Lower;
      var tokens := MEMORY_TOKENS;
      var i := 0;
      while i < |tokens|
        invariant 0 <= i <= |tokens|
        invariant findings + AuditMemory(text, tokens[i..], seat) == old(findings) + AuditMemory(text, tokens, seat)
      {
        assert tokens[i..][0] == tokens[i] && tokens[i..][1..] == tokens[i + 1..];
        var hit := if Contains(Lower(text), tokens[i]) then [MemoryLeak(tokens[i], seat)] else [];
        Assoc(findings, [], hit, AuditMemory(text, tokens[i + 1..], seat));
        findings := findings + hit;
        i := i + 1;
      }
    }

    method CollectEvents(events: seq<Entry>, public: bool, own: string, seat: string)
      modifies this
      ensures findings == old(findings) + AuditEvents(events, public, own, seat)
    {
      hide Leaks, Collect, RankedRules;
      var i := 0;
      while i < |events|
        invariant 0 <= i <= |events|
        invariant findings + AuditEvents(events[i..], public, own, seat)
                  == old(findings) + AuditEvents(events, public, own, seat)
      {
        assert events[i..][0] == events[i] && events[i..][1..] == events[i + 1..];
        Assoc(findings, [], Leaks(Collect(events[i].payload, RankedRules(own), []), public, events[i], seat),
              AuditEvents(events[i + 1..], public, own, seat));
        CollectPayload(events[i].payload, own, [], public, events[i], seat);
        i := i + 1;
      }
    }
  }

  lemma Assoc<T>(a: seq<T>, b: seq<T>, c: seq<T>, d: seq<T>)
    ensures a + b + c + d == a + (b + c + d)
    ensures b == [] ==> a + c + d == a + (c + d)
  {
  }

  lemma NoFieldsNoLeaks(fields: seq<Field>, r: Rules, at: Path, public: bool, e: Entry, seat: string)
    requires fields == []
    ensures Leaks(CollectFields(fields, r, at), public, e, seat) == []
  {
  }

  lemma NoItemsNoLeaks(items: seq<Json>, index: nat, r: Rules, at: Path, public: bool, e: Entry, seat: string)
    requires items == []
    ensures Leaks(CollectItems(items, r, at, index), public, e, seat) == []
  {
  }

  lemma LeaksOfConcat(a: seq<Finding>, b: seq<Finding>, public: bool, e: Entry, seat: string)
    ensures Leaks(a + b, public, e, seat) == Leaks(a, public, e, seat) + Leaks(b, public, e, seat)
  {
  }

  lemma CollectFieldsHead(fields: seq<Field>, i: nat, r: Rules, at: Path, public: bool, e: Entry, seat: string)
    requires i < |fields|
    ensures var f := fields[i];
            var sub := at + [Key(f.key)];
            Leaks(CollectFields(fields[i..], r, at), public, e, seat) ==
              (if Offends(r, f) then [PayloadLeak(Finding(sub, f.value), public, e, seat)] else [])
              + Leaks(Collect(f.value, r, sub), public, e, seat)
              + Leaks(CollectFields(fields[i + 1..], r, at), public, e, seat)
  {
    assert fields[i..][0] == fields[i] && fields[i..][1..] == fields[i + 1..];
    var f := fields[i];
    var sub := at + [Key(f.key)];
    var own := if Offends(r, f) then [Finding(sub, f.value)] else [];
    LeaksOfConcat(own + Collect(f.value, r, sub), CollectFields(fields[i + 1..], r, at), public, e, seat);
    LeaksOfConcat(own, Collect(f.value, r, sub), public, e, seat);
  }

  lemma CollectItemsHead(items: seq<Json>, i: nat, r: Rules, at: Path, public: bool, e: Entry, seat: string)
    requires i < |items|
    ensures Leaks(CollectItems(items[i..], r, at, i), public, e, seat) ==
              Leaks(Collect(items[i], r, at + [Index(i)]), public, e, seat)
              + Leaks(CollectItems(items[i + 1..], r, at, i + 1), public, e, seat)
  {
    assert items[i..][0] == items[i] && items[i..][1..] == items[i + 1..];
    LeaksOfConcat(Collect(items[i], r, at + [Index(i)]), CollectItems(items[i + 1..], r, at, i + 1), public, e, seat);
  }

  // audit_observation_log_for_seat
  method AuditObservationLog(observations: seq<Observation>, seat: string) returns (findings: seq<LeakFinding>)
    ensures findings == AuditAll(observations, seat)
  {
    hide AuditEvents, AuditMemory;
    var log := new AuditLog();
    var i := 0;
    while i < |observations|
      invariant 0 <= i <= |observations|
      invariant log.findings + AuditAll(observations[i..], seat) == AuditAll(observations, seat)
    {
      var obs := observations[i];
      assert observations[i..][0] == obs && observations[i..][1..] == observations[i + 1..];
      ghost var before := log.findings;
      log.CollectEvents(obs.publicEvents, true, obs.gameId, seat);
      log.CollectEvents(obs.privateEvents, false, obs.gameId, seat);
      log.CollectMemory(obs.memory, seat);
      ghost var a := AuditEvents(obs.publicEvents, true, obs.gameId, seat);
      ghost var b := AuditEvents(obs.privateEvents, false, obs.gameId, seat);
      ghost var c := AuditMemory(obs.memory, MEMORY_TOKENS, seat);
      assert log.findings == before + Audit(obs, seat) by { Assoc(before, a, b, c); }
      Assoc(before, [], Audit(obs, seat), AuditAll(observations[i + 1..], seat));
      i := i + 1;
    }
    findings := log.findings;
  }

  function AuditAll(observations: seq<Observation>, seat: string): seq<LeakFinding>
    decreases |observations|
  {
    if observations == [] then [] else Audit(observations[0], seat) + AuditAll(observations[1..], seat)
  }

  // The offline audit of a whole log is clean exactly when the runtime guard passed every
  // observation of it.
  lemma {:induction false} CleanLogIffNoGuardRaised(observations: seq<Observation>, seat: string)
    ensures AuditAll(observations, seat) == [] <==> forall i :: 0 <= i < |observations| ==> Guard(observations[i]).None?
    decreases |observations|
  {
    hide Guard, Audit;
    if observations != [] {
      GuardAndAuditorAgree(observations[0], seat);
      CleanLogIffNoGuardRaised(observations[1..], seat);
      assert forall i :: 1 <= i < |observations| ==> observations[i] == observations[1..][i - 1];
    }
  }
}
