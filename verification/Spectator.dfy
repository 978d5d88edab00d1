// The spectator projection and the public_event_v1 envelope built on it.
module Spectator {
  import opened Options
  import opened Privacy

  // ------------------------------------------------ stripping

  // strip_forbidden: drop every forbidden key, recursively; scalars are unchanged.
  function Strip(v: Json, keys: set<string>): Json
    decreases v, 0
  {
    match v
    case Dict(fields) => Dict(StripFields(fields, keys))
    case List(items) => List(StripItems(items, keys))
    case Tuple(items) => Tuple(StripItems(items, keys))
    case _ => v
  }

  function StripFields(fields: seq<Field>, keys: set<string>): seq<Field>
    decreases fields, 0
  {
    if fields == [] then []
    else
      var rest := StripFields(fields[1..], keys);
      if fields[0].key in keys then rest else [Field(fields[0].key, Strip(fields[0].value, keys))] + rest
  }

  function StripItems(items: seq<Json>, keys: set<string>): (r: seq<Json>)
    decreases items, 0
  {
    if items == [] then [] else [Strip(items[0], keys)] + StripItems(items[1..], keys)
  }

  // assert_anonymous_safe / assert_no_identity_markers: no dictionary at any depth has a key in `keys`.
  predicate Safe(v: Json, keys: set<string>)
    decreases v
  {
    match v
    case Dict(fields) => forall i :: 0 <= i < |fields| ==> fields[i].key !in keys && Safe(fields[i].value, keys)
    case List(items) => forall i :: 0 <= i < |items| ==> Safe(items[i], keys)
    case Tuple(items) => forall i :: 0 <= i < |items| ==> Safe(items[i], keys)
    case _ => true
  }

  // The anonymity check and the publish-gate collector object to the same values.
  lemma {:induction false} SafeIffNoFinding(v: Json, keys: set<string>, at: Path)
    ensures Safe(v, keys) <==> Collect(v, Rules(keys, None), at) == []
    decreases v, 0
  {
    match v
    case Dict(fields) => SafeIffNoFieldFinding(fields, keys, at);
    case List(items) => SafeIffNoItemFinding(items, keys, at, 0);
    case Tuple(items) => SafeIffNoItemFinding(items, keys, at, 0);
    case _ =>
  }

  lemma {:induction false} SafeIffNoFieldFinding(fields: seq<Field>, keys: set<string>, at: Path)
    ensures Safe(Dict(fields), keys) <==> CollectFields(fields, Rules(keys, None), at) == []
    decreases fields, 0
  {
    if fields != [] {
      SafeIffNoFinding(fields[0].value, keys, at + [Key(fields[0].key)]);
      SafeIffNoFieldFinding(fields[1..], keys, at);
      SafeFieldsSplit(fields, keys);
    }
  }

  lemma SafeFieldsSplit(fields: seq<Field>, keys: set<string>)
    requires fields != []
    ensures Safe(Dict(fields), keys) <==>
            fields[0].key !in keys && Safe(fields[0].value, keys) && Safe(Dict(fields[1..]), keys)
  {
    assert forall i :: 1 <= i < |fields| ==> fields[i] == fields[1..][i - 1];
  }

  lemma {:induction false} SafeIffNoItemFinding(items: seq<Json>, keys: set<string>, at: Path, index: nat)
    ensures Safe(List(items), keys) <==> CollectItems(items, Rules(keys, None), at, index) == []
    decreases items, 0
  {
    if items != [] {
      SafeIffNoFinding(items[0], keys, at + [Index(index)]);
      SafeIffNoItemFinding(items[1..], keys, at, index + 1);
      SafeItemsSplit(items, keys);
    }
  }

  lemma SafeItemsSplit(items: seq<Json>, keys: set<string>)
    requires items != []
    ensures Safe(List(items), keys) <==> Safe(items[0], keys) && Safe(List(items[1..]), keys)
  {
    assert forall i :: 1 <= i < |items| ==> items[i] == items[1..][i - 1];
  }

  // Stripping always yields a value the check accepts.
  lemma {:induction false} StrippedIsSafe(v: Json, keys: set<string>)
    ensures Safe(Strip(v, keys), keys)
    decreases v, 0
  {
    match v
    case Dict(fields) => StrippedFieldsSafe(fields, keys);
    case List(items) => StrippedItemsSafe(items, keys);
    case Tuple(items) => StrippedItemsSafe(items, keys);
    case _ =>
  }

  lemma {:induction false} StrippedFieldsSafe(fields: seq<Field>, keys: set<string>)
    ensures forall i :: 0 <= i < |StripFields(fields, keys)| ==>
              StripFields(fields, keys)[i].key !in keys && Safe(StripFields(fields, keys)[i].value, keys)
    decreases fields, 0
  {
    if fields != [] {
      StrippedIsSafe(fields[0].value, keys);
      StrippedFieldsSafe(fields[1..], keys);
    }
  }

  lemma {:induction false} StrippedItemsSafe(items: seq<Json>, keys: set<string>)
    ensures forall i :: 0 <= i < |StripItems(items, keys)| ==> Safe(StripItems(items, keys)[i], keys)
    decreases items, 0
  {
    if items != [] {
      StrippedIsSafe(items[0], keys);
      StrippedItemsSafe(items[1..], keys);
    }
  }

  // Stripping changes a value exactly when it was unsafe.
  lemma {:induction false} StripChangesUnsafe(v: Json, keys: set<string>)
    ensures Strip(v, keys) == v <==> Safe(v, keys)
    decreases v, 0
  {
    match v
    case Dict(fields) => StripFieldsChangesUnsafe(fields, keys);
    case List(items) => StripItemsChangesUnsafe(items, keys);
    case Tuple(items) => StripItemsChangesUnsafe(items, keys);
    case _ =>
  }

  lemma {:induction false} StripFieldsChangesUnsafe(fields: seq<Field>, keys: set<string>)
    ensures |StripFields(fields, keys)| <= |fields|
    ensures StripFields(fields, keys) == fields <==> Safe(Dict(fields), keys)
    decreases fields, 0
  {
    if fields != [] {
      StripChangesUnsafe(fields[0].value, keys);
      StripFieldsChangesUnsafe(fields[1..], keys);
      SafeFieldsSplit(fields, keys);
      assert fields == [fields[0]] + fields[1..];
      if fields[0].key !in keys {
        var kept := [Field(fields[0].key, Strip(fields[0].value, keys))] + StripFields(fields[1..], keys);
        assert kept[0] == Field(fields[0].key, Strip(fields[0].value, keys))
               && kept[1..] == StripFields(fields[1..], keys);
      }
    }
  }

  lemma {:induction false} StripItemsChangesUnsafe(items: seq<Json>, keys: set<string>)
    ensures StripItems(items, keys) == items <==> Safe(List(items), keys)
    ensures StripItems(items, keys) == items <==> Safe(Tuple(items), keys)
    decreases items, 0
  {
    if items != [] {
      StripChangesUnsafe(items[0], keys);
      StripItemsChangesUnsafe(items[1..], keys);
      SafeItemsSplit(items, keys);
      assert items == [items[0]] + items[1..];
      var kept := [Strip(items[0], keys)] + StripItems(items[1..], keys);
      assert kept[0] == Strip(items[0], keys) && kept[1..] == StripItems(items[1..], keys);
    }
    assert Safe(Tuple(items), keys) <==> Safe(List(items), keys);
  }

  // Two strips are one strip of the union, in either order.
  lemma {:induction false} StripTwice(v: Json, a: set<string>, b: set<string>)
    ensures Strip(Strip(v, a), b) == Strip(v, a + b)
    decreases v, 0
  {
    match v
    case Dict(fields) => StripFieldsTwice(fields, a, b);
    case List(items) => StripItemsTwice(items, a, b);
    case Tuple(items) => StripItemsTwice(items, a, b);
    case _ =>
  }

  lemma {:induction false} StripFieldsTwice(fields: seq<Field>, a: set<string>, b: set<string>)
    ensures StripFields(StripFields(fields, a), b) == StripFields(fields, a + b)
    decreases fields, 0
  {
    if fields != [] {
      StripTwice(fields[0].value, a, b);
      StripFieldsTwice(fields[1..], a, b);
      if fields[0].key !in a {
        var f := Field(fields[0].key, Strip(fields[0].value, a));
        var once := [f] + StripFields(fields[1..], a);
        assert once[0] == f && once[1..] == StripFields(fields[1..], a);
      }
    }
  }

  lemma {:induction false} StripItemsTwice(items: seq<Json>, a: set<string>, b: set<string>)
    ensures StripItems(StripItems(items, a), b) == StripItems(items, a + b)
    decreases items, 0
  {
    if items != [] {
      StripTwice(items[0], a, b);
      StripItemsTwice(items[1..], a, b);
      var once := [Strip(items[0], a)] + StripItems(items[1..], a);
      assert once[0] == Strip(items[0], a) && once[1..] == StripItems(items[1..], a);
    }
  }

  // The value a path leads to.
  function ValueAt(v: Json, p: Path): Option<Json>
    decreases |p|, 0
  {
    if p == [] then Some(v)
    else
      match p[0]
      case Key(k) => if v.Dict? then ValueOf(v.fields, k, p[1..]) else None
      case Index(i) => if Sequence(v) && i < |v.items| then ValueAt(v.items[i], p[1..]) else None
  }

  function ValueOf(fields: seq<Field>, k: string, p: Path): Option<Json>
    decreases |p|, |fields| + 1
  {
    if fields == [] then None
    else if fields[0].key == k then ValueAt(fields[0].value, p)
    else ValueOf(fields[1..], k, p)
  }

  // Scalars stay as they are, lists keep their length and dictionaries their remaining keys in order.
  lemma StripKeepsShape(v: Json, keys: set<string>)
    ensures match v
            case Dict(fields) => Strip(v, keys).Dict? && KeysOf(Strip(v, keys).fields) == KeysLeft(KeysOf(fields), keys)
            case List(items) => Strip(v, keys).List? && |Strip(v, keys).items| == |items|
            case Tuple(items) => Strip(v, keys).Tuple? && |Strip(v, keys).items| == |items|
            case _ => Strip(v, keys) == v
  {
    match v
    case Dict(fields) => StripKeepsKeys(fields, keys);
    case List(items) => StripKeepsLength(items, keys);
    case Tuple(items) => StripKeepsLength(items, keys);
    case _ =>
  }

  function KeysOf(fields: seq<Field>): seq<string> {
    seq(|fields|, i requires 0 <= i < |fields| => fields[i].key)
  }

  function KeysLeft(names: seq<string>, keys: set<string>): seq<string> {
    if names == [] then [] else (if names[0] in keys then [] else [names[0]]) + KeysLeft(names[1..], keys)
  }

  lemma {:induction false} StripKeepsKeys(fields: seq<Field>, keys: set<string>)
    ensures KeysOf(StripFields(fields, keys)) == KeysLeft(KeysOf(fields), keys)
    decreases |fields|
  {
    if fields != [] {
      StripKeepsKeys(fields[1..], keys);
      assert KeysOf(fields)[1..] == KeysOf(fields[1..]);
    }
  }

  lemma {:induction false} StripKeepsLength(items: seq<Json>, keys: set<string>)
    ensures |StripItems(items, keys)| == |items|
    ensures forall i :: 0 <= i < |items| ==> StripItems(items, keys)[i] == Strip(items[i], keys)
    decreases |items|
  {
    if items != [] { StripKeepsLength(items[1..], keys); }
  }

  predicate Passes(p: Path, keys: set<string>) {
    exists i :: 0 <= i < |p| && p[i].Key? && p[i].key in keys
  }

  lemma PassesSplit(p: Path, keys: set<string>)
    requires p != []
    ensures Passes(p, keys) <==> (p[0].Key? && p[0].key in keys) || Passes(p[1..], keys)
  {
    assert forall i :: 1 <= i < |p| ==> p[i] == p[1..][i - 1];
  }

  function StrippedOf(v: Option<Json>, keys: set<string>): Option<Json> {
    if v.Some? then Some(Strip(v.value, keys)) else None
  }

  // Stripping takes away exactly what a path through a forbidden key leads to; every other path
  // still leads to the same place.
  lemma {:induction false} StrippedAt(v: Json, keys: set<string>, p: Path)
    ensures ValueAt(Strip(v, keys), p) == if Passes(p, keys) then None else StrippedOf(ValueAt(v, p), keys)
    decreases |p|, 0
  {
    hide Passes;
    if p == [] {
      NoPath(keys);
    } else {
      PassesSplit(p, keys);
      match v
      case Dict(fields) => if p[0].Key? { StrippedFieldAt(fields, keys, p[0].key, p[1..]); }
      case List(items) =>
        StripKeepsLength(items, keys);
        if p[0].Index? && p[0].i < |items| { StrippedAt(items[p[0].i], keys, p[1..]); }
      case Tuple(items) =>
        StripKeepsLength(items, keys);
        if p[0].Index? && p[0].i < |items| { StrippedAt(items[p[0].i], keys, p[1..]); }
      case _ =>
    }
  }

  lemma NoPath(keys: set<string>)
    ensures !Passes([], keys)
  {
  }

  lemma {:induction false} StrippedFieldAt(fields: seq<Field>, keys: set<string>, k: string, p: Path)
    ensures ValueOf(StripFields(fields, keys), k, p)
            == if k in keys || Passes(p, keys) then None else StrippedOf(ValueOf(fields, k, p), keys)
    decreases |p|, |fields| + 1
  {
    hide Passes;
    if fields != [] {
      StrippedFieldAt(fields[1..], keys, k, p);
      if fields[0].key == k { StrippedAt(fields[0].value, keys, p); }
      if fields[0].key !in keys {
        var f := Field(fields[0].key, Strip(fields[0].value, keys));
        assert StripFields(fields, keys)[0] == f && StripFields(fields, keys)[1..] == StripFields(fields[1..], keys);
      }
    }
  }

  // ------------------------------------------------ identity modes

  // A stored identity_mode: NULL, something that is not text, or text.
  datatype RawMode = Missing | NotText | Text(s: string)

  datatype IdentityMode = Anonymous | Transparent

  function UpperChar(c: char): char {
    if 'a' <= c <= 'z' then c - 'a' + 'A' else c
  }

  function Upper(s: string): string {
    seq(|s|, i requires 0 <= i < |s| => UpperChar(s[i]))
  }

  predicate Space(c: char) { c in " \t\n\r" }

  function Trim(s: string): string
    decreases |s|
  {
    if s == [] then s
    else if Space(s[0]) then Trim(s[1..])
    else if Space(s[|s| - 1]) then Trim(s[..|s| - 1])
    else s
  }

  // coerce_identity_mode: anything but an explicit TRANSPARENT is anonymous.
  function Coerce(mode: RawMode): IdentityMode {
    match mode
    case Text(s) => if Upper(Trim(s)) == "TRANSPARENT" then Transparent else Anonymous
    case _ => Anonymous
  }

  function ForbiddenFor(mode: RawMode): set<string> {
    if Coerce(mode) == Anonymous then FORBIDDEN_PAYLOAD_KEYS else FORBIDDEN_PAYLOAD_KEYS - IDENTITY_MARKER_KEYS
  }

  // ------------------------------------------------ event projections

  datatype Event = Event(sequence: nat, eventType: string, phase: string, visibility: string,
                         actor: Option<string>, payload: Json, prevHash: string, hash: string)

  predicate Public(e: Event) { Upper(e.visibility) == "PUBLIC" }

  // project_event_for_spectator(_mode): drop the event unless it is PUBLIC, else strip its payload.
  function Project(e: Event, keys: set<string>): Option<Event> {
    if !Public(e) then None
    else
      var stripped := Strip(e.payload, keys);
      Some(e.(payload := if stripped.Dict? then stripped else Dict([])))
  }

  function ProjectMode(e: Event, mode: RawMode): Option<Event> {
    Project(e, ForbiddenFor(mode))
  }

  function ProjectAll(events: seq<Event>, keys: set<string>): seq<Event>
    decreases |events|
  {
    if events == [] then []
    else
      Kept(Project(events[0], keys)) + ProjectAll(events[1..], keys)
  }

  function Kept<T>(x: Option<T>): seq<T> {
    if x.Some? then [x.value] else []
  }

  lemma {:induction false} ProjectAllConcat(a: seq<Event>, b: seq<Event>, keys: set<string>)
    ensures ProjectAll(a + b, keys) == ProjectAll(a, keys) + ProjectAll(b, keys)
    decreases |a|
  {
    hide Project;
    if a == [] {
      assert a + b == b;
    } else {
      assert (a + b)[0] == a[0] && (a + b)[1..] == a[1..] + b;
      ProjectAllConcat(a[1..], b, keys);
    }
  }

  method ProjectEvents(events: seq<Event>, mode: RawMode) returns (projected: seq<Event>)
    ensures projected == ProjectAll(events, ForbiddenFor(mode))
  {
    hide Project, ForbiddenFor;
    projected := [];
    var keys := ForbiddenFor(mode);
    var i := 0;
    while i < |events|
      invariant 0 <= i <= |events|
      invariant projected == ProjectAll(events[..i], keys)
    {
      assert events[..i + 1] == events[..i] + [events[i]];
      ProjectAllConcat(events[..i], [events[i]], keys);
      ProjectAllOne(events[i], keys);
      var kept := ProjectMode(events[i], mode);
      if kept.Some? {
        projected := projected + [kept.value];
      }
      i := i + 1;
    }
    assert events[..i] == events;
  }

  lemma ProjectAllOne(e: Event, keys: set<string>)
    ensures ProjectAll([e], keys) == Kept(Project(e, keys))
  {
    hide Project;
    assert [e][1..] == [];
  }

  // Re-projecting with a larger key set is the same as projecting with it at once: the anonymous
  // view of a game is the anonymous projection of its transparent view, event by event in order.
  lemma {:induction false} ProjectTwice(events: seq<Event>, few: set<string>, many: set<string>)
    requires few <= many
    ensures ProjectAll(ProjectAll(events, few), many) == ProjectAll(events, many)
    decreases |events|
  {
    hide Project, Strip, Public;
    if events != [] {
      var kept := Project(events[0], few);
      ProjectTwice(events[1..], few, many);
      ProjectOneTwice(events[0], few, many);
      ProjectAllConcat(Kept(kept), ProjectAll(events[1..], few), many);
      if kept.Some? { ProjectAllOne(kept.value, many); }
    }
  }

  lemma ProjectOneTwice(e: Event, few: set<string>, many: set<string>)
    requires few <= many
    ensures Project(e, few).Some? ==> Project(Project(e, few).value, many) == Project(e, many)
    ensures Project(e, few).None? ==> Project(e, many).None?
  {
    hide Upper, Strip;
    StripTwice(e.payload, few, many);
    assert few + many == many;
    KindKept(e.payload, few);
    KindKept(e.payload, many);
    EmptyStays(many);
  }

  lemma KindKept(v: Json, keys: set<string>)
    ensures Strip(v, keys).Dict? <==> v.Dict?
  {
  }

  lemma EmptyStays(keys: set<string>)
    ensures Strip(Dict([]), keys) == Dict([])
  {
  }

  lemma AnonymousViewOfTransparentView(events: seq<Event>, anonymous: RawMode, transparent: RawMode)
    requires Coerce(anonymous) == Anonymous && Coerce(transparent) == Transparent
    ensures ProjectAll(ProjectAll(events, ForbiddenFor(transparent)), ForbiddenFor(anonymous))
            == ProjectAll(events, ForbiddenFor(anonymous))
  {
    ProjectTwice(events, ForbiddenFor(transparent), ForbiddenFor(anonymous));
  }

  // ------------------------------------------------ what the modes mean

  // The word in capitals, small letters or both.
  predicate Spells(s: string, word: string) {
    |s| == |word| && forall i :: 0 <= i < |s| ==> SameLetter(s[i], word[i])
  }

  predicate SameLetter(c: char, capital: char) {
    if 'a' <= c <= 'z' then capital == c - 'a' + 'A' else capital == c
  }

  lemma UpperSpells(s: string, word: string)
    ensures Upper(s) == word <==> Spells(s, word)
  {
    if Upper(s) == word {
      forall i | 0 <= i < |s| ensures SameLetter(s[i], word[i]) { assert Upper(s)[i] == word[i]; }
    }
    if Spells(s, word) {
      forall i | 0 <= i < |s| ensures Upper(s)[i] == word[i] { assert SameLetter(s[i], word[i]); }
      assert Upper(s) == word;
    }
  }

  predicate BlankChar(c: char) { c == ' ' || c == '\t' || c == '\n' || c == '\r' }

  predicate Blank(s: string) { forall i :: 0 <= i < |s| ==> BlankChar(s[i]) }

  lemma BlankConcat(a: string, b: string)
    ensures Blank(a + b) <==> Blank(a) && Blank(b)
  {
    assert forall i :: 0 <= i < |a| ==> (a + b)[i] == a[i];
    assert forall i :: 0 <= i < |b| ==> (a + b)[|a| + i] == b[i];
  }

  // The text is the word but for blanks around it.
  predicate SpellsBetweenBlanks(s: string, word: string) {
    exists i, j :: 0 <= i <= j <= |s| && Blank(s[..i]) && Blank(s[j..]) && Spells(s[i..j], word)
  }

  // The cut takes away blanks only, and leaves none at either end.
  lemma {:induction false} TrimCuts(s: string) returns (i: nat, j: nat)
    ensures i <= j <= |s| && Trim(s) == s[i..j] && Blank(s[..i]) && Blank(s[j..])
    ensures Trim(s) != [] ==> !Space(Trim(s)[0]) && !Space(Trim(s)[|Trim(s)| - 1])
    decreases |s|
  {
    hide Blank;
    if s == [] || (!Space(s[0]) && !Space(s[|s| - 1])) {
      i, j := 0, |s|;
      NoBlanks();
      assert s[0..|s|] == s && s[..0] == [] && s[|s|..] == [];
    } else if Space(s[0]) {
      var head, rest := [s[0]], s[1..];
      var a, b := TrimCuts(rest);
      i, j := a + 1, b + 1;
      OneBlank(s[0]);
      BlankConcat(head, rest[..a]);
      assert s[..i] == head + rest[..a] && s[j..] == rest[b..] && s[i..j] == rest[a..b];
    } else {
      var short, last := s[..|s| - 1], [s[|s| - 1]];
      i, j := TrimCuts(short);
      OneBlank(s[|s| - 1]);
      BlankConcat(short[j..], last);
      assert s[..i] == short[..i] && s[j..] == short[j..] + last && s[i..j] == short[i..j];
    }
  }

  lemma NoBlanks()
    ensures Blank([])
  {
  }

  lemma OneBlank(c: char)
    ensures Blank([c]) <==> Space(c)
  {
    assert [c][0] == c;
  }

  // So whatever stands between blanks, and has none at its ends, is what the cut leaves.
  lemma {:induction false} TrimLeaves(s: string, i: nat, j: nat)
    requires i < j <= |s| && Blank(s[..i]) && Blank(s[j..]) && !Space(s[i]) && !Space(s[j - 1])
    ensures Trim(s) == s[i..j]
    decreases |s|
  {
    hide Blank;
    if i > 0 {
      var head, rest := [s[0]], s[1..];
      OneBlank(s[0]);
      BlankConcat(head, rest[..i - 1]);
      assert s[..i] == head + rest[..i - 1] && rest[j - 1..] == s[j..] && rest[i - 1..j - 1] == s[i..j];
      TrimLeaves(rest, i - 1, j - 1);
    } else if j < |s| {
      var short, last := s[..|s| - 1], [s[|s| - 1]];
      OneBlank(s[|s| - 1]);
      BlankConcat(short[j..], last);
      assert s[j..] == short[j..] + last && short[..i] == s[..i] && short[i..j] == s[i..j];
      TrimLeaves(short, i, j);
    } else {
      assert s[i..j] == s;
    }
  }

  lemma LettersNotBlank(c: char, capital: char)
    requires SameLetter(c, capital) && 'A' <= capital <= 'Z'
    ensures !Space(c)
  {
  }

  lemma TrimSpells(s: string, word: string)
    requires word != [] && 'A' <= word[0] <= 'Z' && 'A' <= word[|word| - 1] <= 'Z'
    ensures Spells(Trim(s), word) <==> SpellsBetweenBlanks(s, word)
  {
    hide Blank, SameLetter, Trim, Space;
    var i, j := TrimCuts(s);
    if SpellsBetweenBlanks(s, word) {
      var a, b :| 0 <= a <= b <= |s| && Blank(s[..a]) && Blank(s[b..]) && Spells(s[a..b], word);
      var t := s[a..b];
      assert t[0] == s[a] && t[|t| - 1] == s[b - 1];
      LettersNotBlank(t[0], word[0]);
      LettersNotBlank(t[|t| - 1], word[|word| - 1]);
      hide Spells;
      TrimLeaves(s, a, b);
    }
  }

  // A view is transparent iff its mode is text that spells so, blanks around it apart.
  lemma TransparentIffSpelt(mode: RawMode)
    ensures Coerce(mode) == Transparent <==> mode.Text? && SpellsBetweenBlanks(mode.s, "TRANSPARENT")
  {
    if mode.Text? {
      TrimSpells(mode.s, "TRANSPARENT");
      UpperSpells(Trim(mode.s), "TRANSPARENT");
      hide Trim, Upper, Spells, SpellsBetweenBlanks;
    }
  }

  // What each view hides: ratings, roles and factions in both, who plays a seat in the anonymous
  // one only.
  function Hidden(transparent: bool): set<string> {
    if transparent then FORBIDDEN_PAYLOAD_KEYS - IDENTITY_MARKER_KEYS else FORBIDDEN_PAYLOAD_KEYS
  }

  // A view shows the events whose visibility spells PUBLIC, whole but for the hidden keys of their
  // payloads.
  lemma ProjectionShows(e: Event, mode: RawMode)
    ensures ProjectMode(e, mode).Some? <==> Spells(e.visibility, "PUBLIC")
    ensures ProjectMode(e, mode).Some? ==>
              var hidden := Hidden(mode.Text? && SpellsBetweenBlanks(mode.s, "TRANSPARENT"));
              ProjectMode(e, mode).value
              == e.(payload := if e.payload.Dict? then Strip(e.payload, hidden) else Dict([]))
  {
    UpperSpells(e.visibility, "PUBLIC");
    TransparentIffSpelt(mode);
    KindKept(e.payload, ForbiddenFor(mode));
  }

  // ------------------------------------------------ public_event_v1

  datatype PublicFrame = PublicFrame(schemaVersion: string, event: Event)

  function ToPublicEvent(e: Event): Option<PublicFrame> {
    var kept := Project(e, FORBIDDEN_PAYLOAD_KEYS);
    if kept.None? then None else Some(PublicFrame("public_event_v1", kept.value))
  }

  function ToPublicEvents(events: seq<Event>): seq<PublicFrame>
    decreases |events|
  {
    if events == [] then [] else Kept(ToPublicEvent(events[0])) + ToPublicEvents(events[1..])
  }

  lemma {:induction false} ToPublicEventsConcat(a: seq<Event>, b: seq<Event>)
    ensures ToPublicEvents(a + b) == ToPublicEvents(a) + ToPublicEvents(b)
    decreases |a|
  {
    hide ToPublicEvent;
    if a == [] {
      assert a + b == b;
    } else {
      assert (a + b)[0] == a[0] && (a + b)[1..] == a[1..] + b;
      ToPublicEventsConcat(a[1..], b);
    }
  }

  lemma ToPublicEventsOne(e: Event)
    ensures ToPublicEvents([e]) == Kept(ToPublicEvent(e))
  {
    hide ToPublicEvent;
    assert [e][1..] == [];
  }

  method ToPublicEventsV1(events: seq<Event>) returns (result: seq<PublicFrame>)
    ensures result == ToPublicEvents(events)
  {
    hide ToPublicEvent;
    result := [];
    var i := 0;
    while i < |events|
      invariant 0 <= i <= |events|
      invariant result == ToPublicEvents(events[..i])
    {
      assert events[..i + 1] == events[..i] + [events[i]];
      ToPublicEventsConcat(events[..i], [events[i]]);
      ToPublicEventsOne(events[i]);
      var projected := ToPublicEvent(events[i]);
      if projected.Some? {
        result := result + [projected.value];
      }
      i := i + 1;
    }
    assert events[..i] == events;
  }

  lemma {:induction false} SafeForFewer(v: Json, few: set<string>, many: set<string>)
    requires few <= many && Safe(v, many)
    ensures Safe(v, few)
    decreases v
  {
    match v
    case Dict(fields) =>
      forall i | 0 <= i < |fields| ensures fields[i].key !in few && Safe(fields[i].value, few) {
        SafeForFewer(fields[i].value, few, many);
      }
    case List(items) =>
      forall i | 0 <= i < |items| ensures Safe(items[i], few) { SafeForFewer(items[i], few, many); }
    case Tuple(items) =>
      forall i | 0 <= i < |items| ensures Safe(items[i], few) { SafeForFewer(items[i], few, many); }
    case _ =>
  }

  // A public frame exists exactly for PUBLIC events, keeps everything but the payload, and its
  // payload passes the anonymity check and gives the publish gate nothing to report.
  lemma PublicFrameIsClean(e: Event)
    ensures ToPublicEvent(e).Some? <==> Public(e)
    ensures Public(e) <==> Spells(e.visibility, "PUBLIC")
    ensures ToPublicEvent(e).Some? ==>
              var frame := ToPublicEvent(e).value;
              && frame.schemaVersion == "public_event_v1" && frame.event == e.(payload := frame.event.payload)
              && frame.event.payload.Dict?
              && Safe(frame.event.payload, FORBIDDEN_PAYLOAD_KEYS)
              && Collect(frame.event.payload, Rules(PUBLISH_FORBIDDEN_PAYLOAD_KEYS, None), []) == []
              && (e.payload.Dict? && Safe(e.payload, FORBIDDEN_PAYLOAD_KEYS) ==> frame.event == e)
  {
    UpperSpells(e.visibility, "PUBLIC");
    StrippedIsSafe(e.payload, FORBIDDEN_PAYLOAD_KEYS);
    StripChangesUnsafe(e.payload, FORBIDDEN_PAYLOAD_KEYS);
    if Public(e) {
      var payload := ToPublicEvent(e).value.event.payload;
      SafeForFewer(payload, PUBLISH_FORBIDDEN_PAYLOAD_KEYS, FORBIDDEN_PAYLOAD_KEYS);
      SafeIffNoFinding(payload, PUBLISH_FORBIDDEN_PAYLOAD_KEYS, []);
    }
  }
}
