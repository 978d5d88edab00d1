// Phase ids: the printer and the three readers of the printed string.
module PhaseId {
  import opened Options

  datatype Kind =
    | Setup | Night0MafiaIntro | DayDiscussion | DayVote
    | NightMafiaDiscussion | NightActions | Terminal

  datatype Phase = Phase(kind: Kind, day: int, round: int)

  // ------------------------------------------------ decimal numbers

  predicate Digit(c: char) { '0' <= c <= '9' }

  function DigitOf(d: nat): char
    requires d < 10
  {
    '0' + d as char
  }

  function Decimal(n: nat): (s: string)
    ensures s != [] && forall i :: 0 <= i < |s| ==> Digit(s[i])
  {
    if n < 10 then [DigitOf(n)] else Decimal(n / 10) + [DigitOf(n % 10)]
  }

  function DigitValue(c: char): nat
    requires Digit(c)
  {
    c as int - '0' as int
  }

  // An integer as an f-string prints it.
  function Printed(n: int): string
  {
    if n < 0 then "-" + Decimal(-n) else Decimal(n)
  }

  // The value of a run of digits.
  function Value(s: string): nat
    requires forall i :: 0 <= i < |s| ==> Digit(s[i])
  {
    if s == "" then 0 else 10 * Value(s[..|s| - 1]) + DigitValue(s[|s| - 1])
  }

  lemma {:induction false} ValueOfDecimal(n: nat)
    ensures Value(Decimal(n)) == n
  {
    var d := DigitOf(n % 10);
    if n < 10 {
      assert Decimal(n) == [d] && [d][..0] == [];
    } else {
      ValueOfDecimal(n / 10);
      var s := Decimal(n / 10) + [d];
      assert s[..|s| - 1] == Decimal(n / 10);
    }
  }

  lemma PrintedInjective(a: int, b: int)
    requires Printed(a) == Printed(b)
    ensures a == b
  {
    if a < 0 && b < 0 {
      assert Printed(a)[1..] == Decimal(-a) && Printed(b)[1..] == Decimal(-b);
      ValueOfDecimal(-a);
      ValueOfDecimal(-b);
    } else if a >= 0 && b >= 0 {
      ValueOfDecimal(a);
      ValueOfDecimal(b);
    } else {
      SignShows(a);
      SignShows(b);
    }
  }

  lemma SignShows(n: int)
    ensures Printed(n)[0] == '-' <==> n < 0
  {
  }

  // Digits and at most a sign: none of the letters or underscores of an id.
  predicate Numeric(s: string)
  {
    forall i :: 0 <= i < |s| ==> Digit(s[i]) || s[i] == '-'
  }

  lemma PrintedNumeric(n: int)
    ensures Printed(n) != "" && Numeric(Printed(n))
  {
  }

  // ------------------------------------------------ the printer

  // format_phase_id
  function Format(p: Phase): string
  {
    match p.kind
    case Setup => "SETUP"
    case Terminal => "TERMINAL"
    case Night0MafiaIntro => "NIGHT_0_MAFIA_INTRO"
    case DayDiscussion => "DAY_" + Printed(p.day) + "_DISCUSSION_ROUND_" + Printed(p.round)
    case DayVote => "DAY_" + Printed(p.day) + "_VOTE"
    case NightMafiaDiscussion => "NIGHT_" + Printed(p.day) + "_MAFIA_DISCUSSION"
    case NightActions => "NIGHT_" + Printed(p.day) + "_ACTIONS"
  }

  // ------------------------------------------------ the readers

  predicate StartsWith(s: string, t: string) { |t| <= |s| && s[..|t|] == t }

  predicate EndsWith(s: string, t: string) { |t| <= |s| && s[|s| - |t|..] == t }

  predicate Contains(s: string, t: string)
  {
    exists i :: 0 <= i <= |s| && StartsWith(s[i..], t)
  }

  // phase_kind_for; None where it raises.
  function KindOf(id: string): Option<Kind>
  {
    if id == "SETUP" then Some(Setup)
    else if id == "TERMINAL" then Some(Terminal)
    else if id == "NIGHT_0_MAFIA_INTRO" then Some(Night0MafiaIntro)
    else if Contains(id, "_DISCUSSION_ROUND_") then Some(DayDiscussion)
    else if EndsWith(id, "_VOTE") then Some(DayVote)
    else if EndsWith(id, "_MAFIA_DISCUSSION") then Some(NightMafiaDiscussion)
    else if EndsWith(id, "_ACTIONS") then Some(NightActions)
    else None
  }

  // The longest run of digits s starts with.
  function LeadingDigits(s: string): (d: string)
    ensures forall i :: 0 <= i < |d| ==> Digit(d[i])
  {
    if s == "" || !Digit(s[0]) then "" else [s[0]] + LeadingDigits(s[1..])
  }

  // _phase_to_day: the number behind the first DAY_ or NIGHT_ that a digit follows, or 0.
  function PhaseToDay(s: string): int
  {
    if s == "" then 0
    else if StartsWith(s, "DAY_") && LeadingDigits(s[4..]) != "" then Value(LeadingDigits(s[4..]))
    else if StartsWith(s, "NIGHT_") && LeadingDigits(s[6..]) != "" then Value(LeadingDigits(s[6..]))
    else PhaseToDay(s[1..])
  }

  // ------------------------------------------------ the kind comes back

  predicate Free(s: string, c: char) { c !in s }

  lemma NotContained(s: string, t: string, c: char)
    requires c in t && Free(s, c)
    ensures !Contains(s, t)
  {
    var k :| 0 <= k < |t| && t[k] == c;
    if Contains(s, t) {
      var i :| 0 <= i <= |s| && StartsWith(s[i..], t);
      CharInside(s, t, i, k);
    }
  }

  lemma CharInside(s: string, t: string, i: nat, k: nat)
    requires i <= |s| && k < |t| && StartsWith(s[i..], t)
    ensures t[k] in s
  {
    assert s[i..][..|t|][k] == s[i + k];
  }

  lemma EndIsLast(s: string, t: string)
    requires t != "" && EndsWith(s, t)
    ensures s != "" && s[|s| - 1] == t[|t| - 1]
  {
    assert s[|s| - |t|..][|t| - 1] == s[|s| - 1];
  }

  lemma EndOfSum(a: string, b: string)
    ensures EndsWith(a + b, b)
  {
    assert (a + b)[|a|..] == b;
  }

  lemma InsideSum(a: string, b: string, c: string)
    ensures Contains(a + b + c, b)
  {
    assert (a + b + c)[|a|..] == b + c;
    assert (b + c)[..|b|] == b;
    assert StartsWith((a + b + c)[|a|..], b);
  }

  // Parsing a printed id gives back the kind, whatever the day and the round.
  lemma KindRoundTrip(p: Phase)
    ensures KindOf(Format(p)) == Some(p.kind)
  {
    PrintedNumeric(p.day);
    PrintedNumeric(p.round);
    match p.kind
    case DayDiscussion => DiscussionKind(p);
    case DayVote => VoteKind(p);
    case NightMafiaDiscussion => MafiaKind(p);
    case NightActions => ActionsKind(p);
    case _ =>
  }

  lemma DiscussionKind(p: Phase)
    requires p.kind == DayDiscussion
    ensures KindOf(Format(p)) == Some(DayDiscussion)
  {
    assert Format(p)[0] == 'D';
    InsideSum("DAY_" + Printed(p.day), "_DISCUSSION_ROUND_", Printed(p.round));
  }

  lemma VoteKind(p: Phase)
    requires p.kind == DayVote
    ensures KindOf(Format(p)) == Some(DayVote)
  {
    PrintedNumeric(p.day);
    assert Format(p)[0] == 'D';
    NotContained(Format(p), "_DISCUSSION_ROUND_", 'R');
    EndOfSum("DAY_" + Printed(p.day), "_VOTE");
  }

  lemma MafiaKind(p: Phase)
    requires p.kind == NightMafiaDiscussion
    ensures KindOf(Format(p)) == Some(NightMafiaDiscussion)
  {
    PrintedNumeric(p.day);
    var s := Format(p);
    assert s[|s| - 1] == 'N';
    NotContained(s, "_DISCUSSION_ROUND_", 'R');
    assert "_VOTE"[4] == 'E';
    if EndsWith(s, "_VOTE") { EndIsLast(s, "_VOTE"); }
    EndOfSum("NIGHT_" + Printed(p.day), "_MAFIA_DISCUSSION");
  }

  lemma ActionsKind(p: Phase)
    requires p.kind == NightActions
    ensures KindOf(Format(p)) == Some(NightActions)
  {
    PrintedNumeric(p.day);
    var s := Format(p);
    assert s[|s| - 1] == 'S';
    NotContained(s, "_DISCUSSION_ROUND_", 'R');
    if EndsWith(s, "_VOTE") { EndIsLast(s, "_VOTE"); }
    if EndsWith(s, "_MAFIA_DISCUSSION") { EndIsLast(s, "_MAFIA_DISCUSSION"); }
    EndOfSum("NIGHT_" + Printed(p.day), "_ACTIONS");
  }

  // The suffix test that decides between ABSTAIN and NOOP.
  lemma VoteSuffixIffVote(p: Phase)
    ensures EndsWith(Format(p), "_VOTE") <==> p.kind == DayVote
  {
    var s := Format(p);
    PrintedNumeric(p.day);
    PrintedNumeric(p.round);
    if p.kind == DayVote {
      EndOfSum("DAY_" + Printed(p.day), "_VOTE");
    } else {
      assert s[|s| - 1] != 'E' by { LastCharacter(p); }
      if EndsWith(s, "_VOTE") { EndIsLast(s, "_VOTE"); }
    }
  }

  lemma LastCharacter(p: Phase)
    requires p.kind != DayVote
    ensures Format(p) != "" && Format(p)[|Format(p)| - 1] != 'E'
  {
    PrintedNumeric(p.day);
    PrintedNumeric(p.round);
    var s, r := Format(p), Printed(p.round);
    if p.kind == DayDiscussion { assert s[|s| - 1] == r[|r| - 1]; }
  }

  // ------------------------------------------------ the day comes back

  predicate Numbered(k: Kind)
  {
    k == DayDiscussion || k == DayVote || k == NightMafiaDiscussion || k == NightActions
  }

  lemma {:induction false} LeadingDigitsStop(d: string, rest: string)
    requires forall i :: 0 <= i < |d| ==> Digit(d[i])
    requires rest == "" || !Digit(rest[0])
    ensures LeadingDigits(d + rest) == d
  {
    if d == "" {
      assert d + rest == rest;
    } else {
      assert (d + rest)[1..] == d[1..] + rest;
      LeadingDigitsStop(d[1..], rest);
    }
  }

  lemma StartShows(s: string, t: string, k: nat)
    requires k < |t|
    ensures StartsWith(s, t) ==> k < |s| && s[k] == t[k]
  {
    if StartsWith(s, t) { assert s[..|t|][k] == s[k]; }
  }

  lemma NoDigits(s: string, k: nat)
    requires k <= |s| && (k < |s| ==> !Digit(s[k]))
    ensures LeadingDigits(s[k..]) == ""
  {
  }

  lemma NumberFound(prefix: string, d: string, rest: string)
    requires prefix == "DAY_" || prefix == "NIGHT_"
    requires d != "" && (forall i :: 0 <= i < |d| ==> Digit(d[i])) && (rest == "" || !Digit(rest[0]))
    ensures PhaseToDay(prefix + d + rest) == Value(d)
  {
    var s := prefix + d + rest;
    assert s[..|prefix|] == prefix && s[|prefix|..] == d + rest;
    assert s[0] == prefix[0];
    LeadingDigitsStop(d, rest);
    StartShows(s, "DAY_", 0);
    hide Value, LeadingDigits;
  }

  lemma {:induction false} NoNumber(s: string)
    requires Free(s, 'Y') && Free(s, 'G')
    ensures PhaseToDay(s) == 0
  {
    if s != "" {
      StartShows(s, "DAY_", 2);
      StartShows(s, "NIGHT_", 2);
      NoNumber(s[1..]);
    }
  }

  lemma DayBehindPrefix(prefix: string, n: int, rest: string)
    requires prefix == "DAY_" || prefix == "NIGHT_"
    requires rest != "" && !Digit(rest[0]) && Free(rest, 'Y') && Free(rest, 'G')
    ensures PhaseToDay(prefix + Printed(n) + rest) == if n >= 0 then n else 0
  {
    hide PhaseToDay, LeadingDigits, Value;
    if n >= 0 {
      NumberFound(prefix, Decimal(n), rest);
      ValueOfDecimal(n);
    } else {
      var tail := Printed(n) + rest;
      assert prefix + Printed(n) + rest == prefix + tail;
      assert tail[0] == '-';
      PrintedNumeric(n);
      assert Free(tail, 'Y') && Free(tail, 'G');
      NegativeSkipped(prefix, tail);
    }
  }

  lemma NegativeSkipped(prefix: string, tail: string)
    requires prefix == "DAY_" || prefix == "NIGHT_"
    requires tail != "" && tail[0] == '-' && Free(tail, 'Y') && Free(tail, 'G')
    ensures PhaseToDay(prefix + tail) == 0
  {
    var s := prefix + tail;
    assert s[|prefix|..] == tail;
    assert s[..4] == prefix[..4];
    assert s[1] == prefix[1] && s[2] == prefix[2] && s[3] == prefix[3];
    SkipOne(s);
    SkipOne(s[1..]);
    SkipOne(s[2..]);
    assert s[1..][1..] == s[2..] && s[2..][1..] == s[3..];
    assert forall i :: 3 <= i < |prefix| ==> s[i] == prefix[i];
    assert forall i :: |prefix| <= i < |s| ==> s[i] == tail[i - |prefix|];
    NoNumber(s[3..]);
  }

  lemma SkipOne(s: string)
    requires s != ""
    requires s[0] != 'D' || |s| < 5 || !Digit(s[4])
    requires s[0] != 'N' || |s| < 7 || !Digit(s[6])
    ensures PhaseToDay(s) == PhaseToDay(s[1..])
  {
    StartShows(s, "DAY_", 0);
    StartShows(s, "NIGHT_", 0);
    if StartsWith(s, "DAY_") { NoDigits(s, 4); }
    if StartsWith(s, "NIGHT_") { NoDigits(s, 6); }
    hide LeadingDigits, Value;
  }

  // The search finds the day of every numbered id from 0 on, and 0 for every other id.
  lemma DayComesBack(p: Phase)
    ensures PhaseToDay(Format(p)) == if Numbered(p.kind) && p.day >= 0 then p.day else 0
  {
    PrintedNumeric(p.round);
    match p.kind
    case Setup => NoNumber("SETUP");
    case Terminal => NoNumber("TERMINAL");
    case Night0MafiaIntro => IntroDay();
    case DayDiscussion =>
      var rest := "_DISCUSSION_ROUND_" + Printed(p.round);
      assert Format(p) == "DAY_" + Printed(p.day) + rest;
      DayBehindPrefix("DAY_", p.day, rest);
    case DayVote => DayBehindPrefix("DAY_", p.day, "_VOTE");
    case NightMafiaDiscussion => DayBehindPrefix("NIGHT_", p.day, "_MAFIA_DISCUSSION");
    case NightActions => DayBehindPrefix("NIGHT_", p.day, "_ACTIONS");
  }

  lemma IntroDay()
    ensures PhaseToDay("NIGHT_0_MAFIA_INTRO") == 0
  {
    DayBehindPrefix("NIGHT_", 0, "_MAFIA_INTRO");
    assert "NIGHT_" + Printed(0) + "_MAFIA_INTRO" == "NIGHT_0_MAFIA_INTRO";
  }

  // ------------------------------------------------ injectivity

  // What comes before the first underscore.
  function Field(s: string): string
  {
    if s == "" || s[0] == '_' then "" else [s[0]] + Field(s[1..])
  }

  lemma {:induction false} FieldEnds(n: string, rest: string)
    requires Numeric(n) && rest != "" && rest[0] == '_'
    ensures Field(n + rest) == n
  {
    if n == "" {
      assert n + rest == rest;
    } else {
      assert (n + rest)[1..] == n[1..] + rest;
      FieldEnds(n[1..], rest);
    }
  }

  // Two numbers printed behind the same prefix and in front of underscores.
  lemma SameFields(prefix: string, a: int, restA: string, b: int, restB: string)
    requires restA != "" && restA[0] == '_' && restB != "" && restB[0] == '_'
    requires prefix + Printed(a) + restA == prefix + Printed(b) + restB
    ensures a == b && restA == restB
  {
    hide Printed, Decimal, Field, Value;
    var s, t := prefix + Printed(a) + restA, prefix + Printed(b) + restB;
    assert s[|prefix|..] == Printed(a) + restA && t[|prefix|..] == Printed(b) + restB;
    PrintedNumeric(a);
    PrintedNumeric(b);
    FieldEnds(Printed(a), restA);
    FieldEnds(Printed(b), restB);
    PrintedInjective(a, b);
    assert s[|prefix + Printed(a)|..] == restA && t[|prefix + Printed(b)|..] == restB;
  }

  // Two phases print the same id exactly when they agree on the fields that are printed.
  lemma FormatInjective(p: Phase, q: Phase)
    ensures Format(p) == Format(q) <==>
              && p.kind == q.kind
              && (Numbered(p.kind) ==> p.day == q.day)
              && (p.kind == DayDiscussion ==> p.round == q.round)
  {
    if Format(p) == Format(q) {
      KindRoundTrip(p);
      KindRoundTrip(q);
      SamePrintedFields(p, q);
    }
  }

  lemma SamePrintedFields(p: Phase, q: Phase)
    requires Format(p) == Format(q) && p.kind == q.kind
    ensures Numbered(p.kind) ==> p.day == q.day
    ensures p.kind == DayDiscussion ==> p.round == q.round
  {
    match p.kind
    case DayDiscussion =>
      var mid := "_DISCUSSION_ROUND_";
      var a, b := mid + Printed(p.round), mid + Printed(q.round);
      assert Format(p) == "DAY_" + Printed(p.day) + a && Format(q) == "DAY_" + Printed(q.day) + b;
      SameFields("DAY_", p.day, a, q.day, b);
      assert a[|mid|..] == Printed(p.round) && b[|mid|..] == Printed(q.round);
      PrintedInjective(p.round, q.round);
    case DayVote => SameFields("DAY_", p.day, "_VOTE", q.day, "_VOTE");
    case NightMafiaDiscussion => SameFields("NIGHT_", p.day, "_MAFIA_DISCUSSION", q.day, "_MAFIA_DISCUSSION");
    case NightActions => SameFields("NIGHT_", p.day, "_ACTIONS", q.day, "_ACTIONS");
    case _ =>
  }
}
