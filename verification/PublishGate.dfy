// The publish gate's search of public payloads, against the ranked audit of the same payloads.
module PublishGate {
  import opened Options
  import opened Privacy

  const PUBLISH_RULES: Rules := Rules(PUBLISH_FORBIDDEN_PAYLOAD_KEYS, None)

  predicate Forbidden(key: string) { key in PUBLISH_FORBIDDEN_PAYLOAD_KEYS }

  // _forbidden_payload_findings
  method ForbiddenPayloadFindings(value: Json, at: Path) returns (findings: seq<Finding>)
    ensures findings == Collect(value, PUBLISH_RULES, at)
    decreases value
  {
    match value
    case Dict(fields) => findings := FieldFindings(fields, at);
    case List(items) => findings := ItemFindings(items, at);
    case Tuple(items) => findings := ItemFindings(items, at);
    case _ => findings := [];
  }

  method FieldFindings(fields: seq<Field>, at: Path) returns (findings: seq<Finding>)
    ensures findings == CollectFields(fields, PUBLISH_RULES, at)
    decreases fields
  {
    hide *;
    findings := [];
    assert fields[0..] == fields;
    for i := 0 to |fields|
      invariant findings + CollectFields(fields[i..], PUBLISH_RULES, at) == CollectFields(fields, PUBLISH_RULES, at)
    {
      var f := fields[i];
      var sub := at + [Key(f.key)];
      ghost var before, rest := findings, CollectFields(fields[i + 1..], PUBLISH_RULES, at);
      FieldsHead(fields, i, at);
      ghost var own: seq<Finding> := [];
      if Forbidden(f.key) {
        own := [Finding(sub, f.value)];
        findings := findings + [Finding(sub, f.value)];
      }
      var inner := ForbiddenPayloadFindings(f.value, sub);
      findings := findings + inner;
      Regroup(before, own, inner, rest);
    }
    assert fields[|fields|..] == [];
    NoFields(at);
  }

  lemma NoFields(at: Path)
    ensures CollectFields([], PUBLISH_RULES, at) == []
  {
  }

  method ItemFindings(items: seq<Json>, at: Path) returns (findings: seq<Finding>)
    ensures findings == CollectItems(items, PUBLISH_RULES, at, 0)
    decreases items
  {
    findings := [];
    for i := 0 to |items|
      invariant findings + CollectItems(items[i..], PUBLISH_RULES, at, i) == CollectItems(items, PUBLISH_RULES, at, 0)
    {
      ghost var before, rest := findings, CollectItems(items[i + 1..], PUBLISH_RULES, at, i + 1);
      assert items[i..][1..] == items[i + 1..];
      var inner := ForbiddenPayloadFindings(items[i], at + [Index(i)]);
      findings := findings + inner;
      Regroup(before, [], inner, rest);
    }
  }

  lemma FieldsHead(fields: seq<Field>, i: nat, at: Path)
    requires i < |fields|
    ensures var (f, sub) := (fields[i], at + [Key(fields[i].key)]);
            CollectFields(fields[i..], PUBLISH_RULES, at)
            == (if Forbidden(f.key) then [Finding(sub, f.value)] else [])
               + Collect(f.value, PUBLISH_RULES, sub) + CollectFields(fields[i + 1..], PUBLISH_RULES, at)
  {
    assert fields[i..][1..] == fields[i + 1..];
    hide Collect;
  }

  lemma Regroup<T>(a: seq<T>, b: seq<T>, c: seq<T>, d: seq<T>)
    ensures a + (b + c + d) == a + b + c + d
  {
  }

  // The gate reports exactly the forbidden keys of a payload, each once.
  lemma GateIsExact(v: Json)
    requires DistinctKeys(v)
    ensures NoRepeats(Collect(v, PUBLISH_RULES, []))
    ensures forall p :: Reported(Collect(v, PUBLISH_RULES, []), p)
              <==> FieldAt(v, p).Some? && FieldAt(v, p).value.key in PUBLISH_FORBIDDEN_PAYLOAD_KEYS
  {
    AuditIsExact(v, PUBLISH_RULES);
    forall p ensures OffenceAt(v, PUBLISH_RULES, p)
                <==> FieldAt(v, p).Some? && FieldAt(v, p).value.key in PUBLISH_FORBIDDEN_PAYLOAD_KEYS {
    }
  }

  // Of what the ranked audit finds in a payload, the gate passes over exactly the role and faction
  // keys and the references to other games.
  lemma GateAgainstAudit(v: Json, ownGame: string, p: Path)
    requires DistinctKeys(v)
    ensures Reported(Collect(v, PUBLISH_RULES, []), p)
       <==> Reported(Collect(v, RankedRules(ownGame), []), p)
            && FieldAt(v, p).Some? && FieldAt(v, p).value.key in PUBLISH_FORBIDDEN_PAYLOAD_KEYS
  {
    GateIsExact(v);
    AuditIsExact(v, RankedRules(ownGame));
  }
}
