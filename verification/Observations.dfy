// Which events of the log a seat is shown.
module Observations {
  import opened Options
  import Privacy

  datatype Event = Event(sequence: nat, eventType: string, visibility: Option<string>, phase: string,
                         actor: Option<string>, payload: seq<Privacy.Field>)

  datatype Entry = Entry(sequence: nat, phase: string, eventType: string, actor: Option<string>,
                         payload: seq<Privacy.Field>)

  datatype Seat = Seat(id: string, mafia: bool, detective: bool)

  const REVEAL_KEYS: set<string> := {"role", "faction"}

  function Without(fields: seq<Privacy.Field>, keys: set<string>): seq<Privacy.Field>
  {
    if fields == [] then []
    else (if fields[0].key in keys then [] else [fields[0]]) + Without(fields[1..], keys)
  }

  // _entry_from_stored
  function EntryOf(e: Event): Entry
  {
    Entry(e.sequence, e.phase, e.eventType, e.actor,
          if e.eventType == "PlayerEliminated" then Without(e.payload, REVEAL_KEYS) else e.payload)
  }

  function MafiaIds(seats: seq<Seat>): set<string>
  {
    set s | s in seats && s.mafia :: s.id
  }

  predicate IsPublic(e: Event) { e.visibility == Some("PUBLIC") }

  predicate IsPrivateFor(seats: seq<Seat>, seat: Seat, e: Event)
  {
    && e.visibility == Some("PRIVATE")
    && (e.actor == Some(seat.id) || (seat.mafia && e.actor.Some? && e.actor.value in MafiaIds(seats)))
  }

  function Publics(log: seq<Event>): seq<Entry>
  {
    if log == [] then []
    else Publics(log[..|log| - 1]) + if IsPublic(log[|log| - 1]) then [EntryOf(log[|log| - 1])] else []
  }

  function Privates(seats: seq<Seat>, seat: Seat, log: seq<Event>): seq<Entry>
  {
    if log == [] then []
    else Privates(seats, seat, log[..|log| - 1])
         + if IsPrivateFor(seats, seat, log[|log| - 1]) then [EntryOf(log[|log| - 1])] else []
  }

  // public[-limit:], where an index before the beginning means the beginning.
  function FromEnd<T>(s: seq<T>, limit: int): seq<T>
  {
    if limit <= 0 then (if -limit <= |s| then s[-limit..] else [])
    else if limit <= |s| then s[|s| - limit..] else s
  }

  function Recent<T>(s: seq<T>, limit: int): seq<T>
  {
    if |s| > limit then FromEnd(s, limit) else s
  }

  // _filter_events
  method FilterEvents(seats: seq<Seat>, seat: Seat, log: seq<Event>, limit: int)
    returns (public: seq<Entry>, private: seq<Entry>)
    ensures public == Recent(Publics(log), limit)
    ensures private == Privates(seats, seat, log)
  {
    var mafia := MafiaIds(seats);
    public, private := [], [];
    for i := 0 to |log|
      invariant public == Publics(log[..i]) && private == Privates(seats, seat, log[..i])
    {
      assert log[..i + 1][..i] == log[..i];
      var e := log[i];
      if e.visibility == Some("PUBLIC") {
        public := public + [EntryOf(e)];
      } else if e.visibility == Some("PRIVATE") {
        if e.actor == Some(seat.id) || (seat.mafia && e.actor.Some? && e.actor.value in mafia) {
          private := private + [EntryOf(e)];
        }
      }
    }
    assert log[..|log|] == log;
    if |public| > limit { public := FromEnd(public, limit); }
  }

  // ------------------------------------------------ the lists that go by event type

  // What a builder does with one event: passes over it, adds an entry, or finds a key missing.
  datatype Pick<T> = Skip | Take(value: T) | Missing

  // The entries of a log; None where the builder raises.
  function Gather<T>(log: seq<Event>, pick: Event -> Pick<T>): Option<seq<T>>
  {
    if log == [] then Some([])
    else
      var before := Gather(log[..|log| - 1], pick);
      match pick(log[|log| - 1])
      case Skip => before
      case Take(v) => if before.Some? then Some(before.value + [v]) else None
      case Missing => None
  }

  function Payload(fields: seq<Privacy.Field>, key: string): Option<Privacy.Json>
  {
    if fields == [] then None
    else if fields[0].key == key then Some(fields[0].value)
    else Payload(fields[1..], key)
  }

  datatype DeadPlayer = DeadPlayer(player: Privacy.Json, phase: string, cause: Privacy.Json)

  datatype Inspection = Inspection(target: Privacy.Json, finding: Privacy.Json, phase: string)

  datatype Feedback = Feedback(code: Privacy.Json, phase: string, target: Option<Privacy.Json>,
                               finding: Option<Privacy.Json>, visited: Option<Privacy.Json>,
                               visitors: Option<Privacy.Json>)

  function PickDead(e: Event): Pick<DeadPlayer>
  {
    if e.eventType != "PlayerEliminated" then Skip
    else
      var (player, cause) := (Payload(e.payload, "public_player_id"), Payload(e.payload, "cause"));
      if player.None? || cause.None? then Missing else Take(DeadPlayer(player.value, e.phase, cause.value))
  }

  function PickInspection(seat: Seat): Event -> Pick<Inspection>
  {
    (e: Event) =>
      if e.eventType != "DetectiveResultDelivered" || e.actor != Some(seat.id) then Skip
      else
        var (target, finding) := (Payload(e.payload, "target"), Payload(e.payload, "finding"));
        if target.None? || finding.None? then Missing else Take(Inspection(target.value, finding.value, e.phase))
  }

  function PickFeedback(seat: Seat): Event -> Pick<Feedback>
  {
    (e: Event) =>
      if e.eventType != "NightFeedbackDelivered" || e.actor != Some(seat.id) then Skip
      else
        var code := Payload(e.payload, "code");
        if code.None? then Missing
        else Take(Feedback(code.value, e.phase, Payload(e.payload, "target"), Payload(e.payload, "finding"),
                           Payload(e.payload, "visited_player_ids"), Payload(e.payload, "visitor_player_ids")))
  }

  // A log that raises goes on raising.
  lemma {:induction false} GatherStops<T>(log: seq<Event>, i: nat, pick: Event -> Pick<T>)
    requires i <= |log| && Gather(log[..i], pick).None?
    ensures Gather(log, pick).None?
    decreases |log|
  {
    if i < |log| {
      assert log[..|log| - 1][..i] == log[..i];
      GatherStops(log[..|log| - 1], i, pick);
    } else {
      assert log[..i] == log;
    }
  }

  // _dead_players
  method DeadPlayers(log: seq<Event>) returns (r: Option<seq<DeadPlayer>>)
    ensures r == Gather(log, PickDead)
  {
    var out: seq<DeadPlayer> := [];
    for i := 0 to |log|
      invariant Gather(log[..i], PickDead) == Some(out)
    {
      var e := log[i];
      assert log[..i + 1][..i] == log[..i];
      if e.eventType != "PlayerEliminated" { continue; }
      var player, cause := Payload(e.payload, "public_player_id"), Payload(e.payload, "cause");
      if player.None? || cause.None? {
        GatherStops(log, i + 1, PickDead);
        return None;
      }
      out := out + [DeadPlayer(player.value, e.phase, cause.value)];
    }
    assert log[..|log|] == log;
    r := Some(out);
  }

  // _inspection_history
  method InspectionHistory(seat: Seat, log: seq<Event>) returns (r: Option<seq<Inspection>>)
    ensures r == Gather(log, PickInspection(seat))
  {
    var out: seq<Inspection> := [];
    for i := 0 to |log|
      invariant Gather(log[..i], PickInspection(seat)) == Some(out)
    {
      var e := log[i];
      assert log[..i + 1][..i] == log[..i];
      if e.eventType != "DetectiveResultDelivered" { continue; }
      if e.actor != Some(seat.id) { continue; }
      var target, finding := Payload(e.payload, "target"), Payload(e.payload, "finding");
      if target.None? || finding.None? {
        GatherStops(log, i + 1, PickInspection(seat));
        return None;
      }
      out := out + [Inspection(target.value, finding.value, e.phase)];
    }
    assert log[..|log|] == log;
    r := Some(out);
  }

  // _role_feedback
  method RoleFeedback(seat: Seat, log: seq<Event>) returns (r: Option<seq<Feedback>>)
    ensures r == Gather(log, PickFeedback(seat))
  {
    var out: seq<Feedback> := [];
    for i := 0 to |log|
      invariant Gather(log[..i], PickFeedback(seat)) == Some(out)
    {
      var e := log[i];
      assert log[..i + 1][..i] == log[..i];
      if e.eventType != "NightFeedbackDelivered" { continue; }
      if e.actor != Some(seat.id) { continue; }
      var code := Payload(e.payload, "code");
      if code.None? {
        GatherStops(log, i + 1, PickFeedback(seat));
        return None;
      }
      out := out + [Feedback(code.value, e.phase, Payload(e.payload, "target"), Payload(e.payload, "finding"),
                             Payload(e.payload, "visited_player_ids"), Payload(e.payload, "visitor_player_ids"))];
    }
    assert log[..|log|] == log;
    r := Some(out);
  }

  // Everything an observation takes from the log; only a detective has an inspection history.
  datatype Lists = Lists(public: seq<Entry>, private: seq<Entry>, dead: seq<DeadPlayer>,
                         inspections: Option<seq<Inspection>>, feedback: seq<Feedback>)

  // None where the build of the observation raises.
  function ListsOf(seats: seq<Seat>, seat: Seat, log: seq<Event>, limit: int): Option<Lists>
  {
    var (dead, feedback) := (Gather(log, PickDead), Gather(log, PickFeedback(seat)));
    var inspections := if seat.detective then Gather(log, PickInspection(seat)) else Some([]);
    if dead.None? || inspections.None? || feedback.None? then None
    else Some(Lists(Recent(Publics(log), limit), Privates(seats, seat, log), dead.value,
                    if seat.detective then Some(inspections.value) else None, feedback.value))
  }

  // build_observation, as far as it reads the log
  method BuildLists(seats: seq<Seat>, seat: Seat, log: seq<Event>, limit: int) returns (r: Option<Lists>)
    ensures r == ListsOf(seats, seat, log, limit)
  {
    var dead := DeadPlayers(log);
    if dead.None? { return None; }
    var public, private := FilterEvents(seats, seat, log, limit);
    var inspections: Option<seq<Inspection>> := None;
    if seat.detective {
      inspections := InspectionHistory(seat, log);
      if inspections.None? { return None; }
    }
    var feedback := RoleFeedback(seat, log);
    if feedback.None? { return None; }
    r := Some(Lists(public, private, dead.value, inspections, feedback.value));
  }

  // ------------------------------------------------ what a seat cannot see

  predicate VisibleTo(seats: seq<Seat>, seat: Seat, e: Event) { IsPublic(e) || IsPrivateFor(seats, seat, e) }

  function Visible(seats: seq<Seat>, seat: Seat, log: seq<Event>): seq<Event>
  {
    if log == [] then []
    else Visible(seats, seat, log[..|log| - 1])
         + if VisibleTo(seats, seat, log[|log| - 1]) then [log[|log| - 1]] else []
  }

  // Dropping everything the seat may not see changes nothing it is shown.
  lemma {:induction false} OnlyVisibleMatters(seats: seq<Seat>, seat: Seat, log: seq<Event>)
    ensures Publics(Visible(seats, seat, log)) == Publics(log)
    ensures Privates(seats, seat, Visible(seats, seat, log)) == Privates(seats, seat, log)
    decreases |log|
  {
    if log != [] {
      var p, e := log[..|log| - 1], log[|log| - 1];
      OnlyVisibleMatters(seats, seat, p);
      var v := Visible(seats, seat, p);
      assert (v + [e])[..|v|] == v;
      assert v + [] == v;
    }
  }

  // Two logs with the same events visible to a seat give it the same public and private lists,
  // whatever the others did in secret.
  lemma HiddenEventsDoNotInterfere(seats: seq<Seat>, seat: Seat, a: seq<Event>, b: seq<Event>, limit: int)
    requires Visible(seats, seat, a) == Visible(seats, seat, b)
    ensures Recent(Publics(a), limit) == Recent(Publics(b), limit)
    ensures Privates(seats, seat, a) == Privates(seats, seat, b)
  {
    OnlyVisibleMatters(seats, seat, a);
    OnlyVisibleMatters(seats, seat, b);
  }

  // No event the builder looks at is hidden from the seat.
  predicate PicksVisible<T>(seats: seq<Seat>, seat: Seat, log: seq<Event>, pick: Event -> Pick<T>)
  {
    forall i :: 0 <= i < |log| && !pick(log[i]).Skip? ==> VisibleTo(seats, seat, log[i])
  }

  lemma {:induction false} GatherSnoc<T>(log: seq<Event>, e: Event, pick: Event -> Pick<T>)
    ensures var before := Gather(log, pick);
            Gather(log + [e], pick) == match pick(e)
                                       case Skip => before
                                       case Take(v) => if before.Some? then Some(before.value + [v]) else None
                                       case Missing => None
  {
    assert (log + [e])[..|log|] == log;
  }

  // Dropping the hidden events leaves a list alone if none of them is looked at; otherwise the list
  // gets shorter, or the builder no longer raises, unless it raises all the same.
  lemma {:induction false} GatherVisible<T>(seats: seq<Seat>, seat: Seat, log: seq<Event>, pick: Event -> Pick<T>)
    ensures var (seen, all) := (Gather(Visible(seats, seat, log), pick), Gather(log, pick));
            && (seen.None? ==> all.None?)
            && (PicksVisible(seats, seat, log, pick) ==> seen == all)
            && (!PicksVisible(seats, seat, log, pick) && seen.Some? && all.Some? ==> |seen.value| < |all.value|)
            && (seen.Some? && all.Some? ==> |seen.value| <= |all.value|)
    decreases |log|
  {
    if log != [] {
      var p, e := log[..|log| - 1], log[|log| - 1];
      assert log == p + [e];
      GatherVisible(seats, seat, p, pick);
      var v := Visible(seats, seat, p);
      GatherSnoc(v, e, pick);
      GatherSnoc(p, e, pick);
      assert v + [] == v;
      PicksSnoc(seats, seat, p, e, pick);
      hide Gather, PicksVisible, VisibleTo;
    }
  }

  lemma PicksSnoc<T>(seats: seq<Seat>, seat: Seat, log: seq<Event>, e: Event, pick: Event -> Pick<T>)
    ensures PicksVisible(seats, seat, log + [e], pick)
       <==> PicksVisible(seats, seat, log, pick) && (pick(e).Skip? || VisibleTo(seats, seat, e))
  {
    var longer := log + [e];
    assert longer[|log|] == e && forall i :: 0 <= i < |log| ==> longer[i] == log[i];
    if PicksVisible(seats, seat, longer, pick) {
      forall i | 0 <= i < |log| && !pick(log[i]).Skip? ensures VisibleTo(seats, seat, log[i]) {
        assert longer[i] == log[i];
      }
    }
  }

  // Every elimination, and every result or feedback for the seat, is visible to it.
  predicate OwnEventsVisible(seats: seq<Seat>, seat: Seat, log: seq<Event>)
  {
    && PicksVisible(seats, seat, log, PickDead)
    && (seat.detective ==> PicksVisible(seats, seat, log, PickInspection(seat)))
    && PicksVisible(seats, seat, log, PickFeedback(seat))
  }

  // The whole of what an observation takes from the log depends on visible events alone exactly
  // when eliminations, results and feedback are visible, or the build raises in any case.
  lemma ObservationFromVisibleIff(seats: seq<Seat>, seat: Seat, log: seq<Event>, limit: int)
    ensures ListsOf(seats, seat, Visible(seats, seat, log), limit) == ListsOf(seats, seat, log, limit)
       <==> OwnEventsVisible(seats, seat, log) || ListsOf(seats, seat, Visible(seats, seat, log), limit).None?
  {
    OnlyVisibleMatters(seats, seat, log);
    GatherVisible(seats, seat, log, PickDead);
    GatherVisible(seats, seat, log, PickInspection(seat));
    GatherVisible(seats, seat, log, PickFeedback(seat));
    hide Publics, Privates, Visible, Recent, Gather, PicksVisible, PickDead, PickInspection, PickFeedback;
  }

  // So two logs with the same visible events give a seat the same observation if what it is told by
  // type is visible in both.
  lemma SecretsDoNotInterfere(seats: seq<Seat>, seat: Seat, a: seq<Event>, b: seq<Event>, limit: int)
    requires Visible(seats, seat, a) == Visible(seats, seat, b)
    requires OwnEventsVisible(seats, seat, a) && OwnEventsVisible(seats, seat, b)
    ensures ListsOf(seats, seat, a, limit) == ListsOf(seats, seat, b, limit)
  {
    ObservationFromVisibleIff(seats, seat, a, limit);
    ObservationFromVisibleIff(seats, seat, b, limit);
  }

  // One of the mafia seats has this id.
  predicate MafiaSeat(seats: seq<Seat>, id: string) { exists s :: s in seats && s.mafia && s.id == id }

  // The entry of an event: all of it, but for the role and the faction of somebody eliminated.
  ghost predicate EntryTells(entry: Entry, e: Event) {
    && entry.sequence == e.sequence && entry.phase == e.phase
    && entry.eventType == e.eventType && entry.actor == e.actor
    && (e.eventType != "PlayerEliminated" ==> entry.payload == e.payload)
    && (e.eventType == "PlayerEliminated" ==>
          && IsPart(entry.payload, e.payload)
          && forall f :: f in entry.payload <==> f in e.payload && f.key != "role" && f.key != "faction")
  }

  // The one is what is left of the other when some fields are taken out.
  predicate IsPart(part: seq<Privacy.Field>, whole: seq<Privacy.Field>)
  {
    if part == [] then true
    else if whole == [] then false
    else if part[0] == whole[0] then IsPart(part[1..], whole[1..])
    else IsPart(part, whole[1..])
  }

  lemma {:induction false} WithoutIsPart(fields: seq<Privacy.Field>, keys: set<string>)
    ensures IsPart(Without(fields, keys), fields)
  {
    if fields != [] {
      WithoutIsPart(fields[1..], keys);
      var rest := Without(fields[1..], keys);
      if fields[0].key in keys {
        assert Without(fields, keys) == rest;
        if rest != [] { assert rest[0] in rest; WithoutKeeps(fields[1..], keys, rest[0]); }
      } else {
        assert ([fields[0]] + rest)[1..] == rest;
      }
    }
  }

  lemma EntryTellsEvent(e: Event)
    ensures EntryTells(EntryOf(e), e)
  {
    WithoutIsPart(e.payload, REVEAL_KEYS);
    forall f ensures f in Without(e.payload, REVEAL_KEYS) <==> f in e.payload && f.key != "role" && f.key != "faction" {
      WithoutKeeps(e.payload, REVEAL_KEYS, f);
    }
  }

  // A private entry is shown iff a private event gave it that the seat did itself or, for a mafia
  // seat, that a mafia seat did.
  lemma {:induction false} PrivateOrigin(seats: seq<Seat>, seat: Seat, log: seq<Event>, entry: Entry)
    ensures entry in Privates(seats, seat, log) <==>
              exists i :: 0 <= i < |log| && EntryOf(log[i]) == entry
                          && log[i].visibility == Some("PRIVATE") && log[i].actor.Some?
                          && (log[i].actor.value == seat.id || (seat.mafia && MafiaSeat(seats, log[i].actor.value)))
    decreases |log|
  {
    if log != [] {
      var p, e := log[..|log| - 1], log[|log| - 1];
      assert forall i :: 0 <= i < |p| ==> p[i] == log[i];
      PrivateOrigin(seats, seat, p, entry);
      PrivateForIs(seats, seat, e);
      hide EntryOf, MafiaSeat, IsPrivateFor;
    }
  }

  lemma PrivateForIs(seats: seq<Seat>, seat: Seat, e: Event)
    ensures IsPrivateFor(seats, seat, e) <==>
              && e.visibility == Some("PRIVATE") && e.actor.Some?
              && (e.actor.value == seat.id || (seat.mafia && MafiaSeat(seats, e.actor.value)))
  {
  }

  // A seat outside the mafia is shown no private event of anybody else.
  lemma TownSeesOnlyItself(seats: seq<Seat>, seat: Seat, log: seq<Event>, entry: Entry)
    requires !seat.mafia && entry in Privates(seats, seat, log)
    ensures entry.actor == Some(seat.id)
  {
    PrivateOrigin(seats, seat, log, entry);
  }

  // All mafia seats of a game are shown the same private events.
  lemma {:induction false} MafiaSharesPrivateEvents(seats: seq<Seat>, a: Seat, b: Seat, log: seq<Event>)
    requires a in seats && b in seats && a.mafia && b.mafia
    ensures Privates(seats, a, log) == Privates(seats, b, log)
    decreases |log|
  {
    if log != [] {
      MafiaSharesPrivateEvents(seats, a, b, log[..|log| - 1]);
      assert a.id in MafiaIds(seats) && b.id in MafiaIds(seats);
    }
  }

  // ------------------------------------------------ eliminated players

  lemma {:induction false} WithoutKeeps(fields: seq<Privacy.Field>, keys: set<string>, f: Privacy.Field)
    ensures f in Without(fields, keys) <==> f in fields && f.key !in keys
  {
    if fields != [] {
      WithoutKeeps(fields[1..], keys, f);
      assert fields == [fields[0]] + fields[1..];
    }
  }

  lemma {:induction false} PublicOrigin(log: seq<Event>, entry: Entry)
    ensures entry in Publics(log) <==>
              exists i :: 0 <= i < |log| && log[i].visibility == Some("PUBLIC") && EntryOf(log[i]) == entry
    decreases |log|
  {
    if log != [] {
      var p := log[..|log| - 1];
      assert forall i :: 0 <= i < |p| ==> p[i] == log[i];
      PublicOrigin(p, entry);
    }
  }

  // No elimination shown to anybody tells the role or the faction, and nothing else is removed.
  lemma EliminationHidesRole(seats: seq<Seat>, seat: Seat, log: seq<Event>, entry: Entry)
    requires entry in Publics(log) || entry in Privates(seats, seat, log)
    ensures exists e :: e in log && EntryTells(entry, e)
    ensures entry.eventType == "PlayerEliminated" ==>
              forall f :: f in entry.payload ==> f.key != "role" && f.key != "faction"
  {
    PublicOrigin(log, entry);
    PrivateOrigin(seats, seat, log, entry);
    var i :| 0 <= i < |log| && EntryOf(log[i]) == entry;
    EntryTellsEvent(log[i]);
    assert log[i] in log;
  }

  // ------------------------------------------------ the fields the lists read

  // A key is found iff some field has it, and with the value of the first such field.
  lemma {:induction false} PayloadFinds(fields: seq<Privacy.Field>, key: string)
    ensures Payload(fields, key).None? <==> forall i :: 0 <= i < |fields| ==> fields[i].key != key
    ensures forall i :: 0 <= i < |fields| && fields[i].key == key && (forall j :: 0 <= j < i ==> fields[j].key != key)
              ==> Payload(fields, key) == Some(fields[i].value)
  {
    if fields != [] {
      PayloadFinds(fields[1..], key);
      assert forall i :: 1 <= i < |fields| ==> fields[i] == fields[1..][i - 1];
    }
  }

  // ------------------------------------------------ the recent transcript

  // The transcript is the end of the log's public entries: with a positive limit the newest limit
  // of them, otherwise all but the oldest -limit.
  lemma RecentIsNewest<T>(s: seq<T>, limit: int)
    ensures |Recent(s, limit)| <= |s| && Recent(s, limit) == s[|s| - |Recent(s, limit)|..]
    ensures limit > 0 ==> |Recent(s, limit)| == (if limit < |s| then limit else |s|)
    ensures limit <= 0 ==> |Recent(s, limit)| == (if -limit < |s| then |s| + limit else 0)
  {
  }

  // The transcript respects the limit exactly when the limit is positive or nothing is left to
  // show: a limit of 0 shows every public event.
  lemma LimitRespectedIff<T>(s: seq<T>, limit: int)
    ensures |Recent(s, limit)| <= (if limit > 0 then limit else 0)
       <==> limit > 0 || |s| <= -limit
  {
  }
}
