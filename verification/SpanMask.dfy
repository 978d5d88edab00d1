// Masking whole-word matches of the soft patterns with asterisks.
module SpanMask {
  // What the regular expressions need to know about characters: which are word characters, and
  // which text characters match a pattern character when case is ignored.
  datatype Alphabet = Alphabet(isWord: char -> bool, same: (char, char) -> bool)

  type Pattern = string

  // Patterns are words, a character that matches a word character is one, and '*' is not.
  ghost predicate Fits(a: Alphabet, patterns: seq<Pattern>)
  {
    && !a.isWord('*')
    && (forall c, p :: a.same(c, p) && a.isWord(p) ==> a.isWord(c))
    && (forall w :: w in patterns ==> IsWord(a, w))
  }

  predicate IsWord(a: Alphabet, w: Pattern)
  {
    w != "" && forall k :: 0 <= k < |w| ==> a.isWord(w[k])
  }

  // A \b position seen from one side: no word character before i, or none at i.
  predicate NoWordBefore(a: Alphabet, text: string, i: nat)
    requires i <= |text|
  {
    i == 0 || !a.isWord(text[i - 1])
  }

  predicate NoWordAt(a: Alphabet, text: string, i: nat)
    requires i <= |text|
  {
    i == |text| || !a.isWord(text[i])
  }

  predicate Spelled(a: Alphabet, text: string, w: Pattern, i: nat)
    requires i + |w| <= |text|
  {
    forall k :: 0 <= k < |w| ==> a.same(text[i + k], w[k])
  }

  // \bw\b matches at position i.
  predicate Matches(a: Alphabet, text: string, w: Pattern, i: nat)
  {
    && i + |w| <= |text|
    && Spelled(a, text, w, i)
    && NoWordBefore(a, text, i) && NoWordAt(a, text, i + |w|)
  }

  // In other words: the text spells w there, and neither neighbour is a word character.
  lemma MatchInContext(a: Alphabet, before: string, middle: string, after: string, w: Pattern)
    requires |middle| == |w|
    ensures Matches(a, before + middle + after, w, |before|) <==>
              && (forall k :: 0 <= k < |w| ==> a.same(middle[k], w[k]))
              && (before == "" || !a.isWord(before[|before| - 1])) && (after == "" || !a.isWord(after[0]))
  {
    var text := before + middle + after;
    assert forall k :: 0 <= k < |w| ==> text[|before| + k] == middle[k];
  }

  // Position k lies inside a match of w.
  predicate Covered(a: Alphabet, text: string, w: Pattern, k: nat)
  {
    exists i: nat :: i <= k < i + |w| && i <= |text| && Matches(a, text, w, i)
  }

  predicate CoveredByAny(a: Alphabet, text: string, patterns: seq<Pattern>, k: nat)
  {
    exists w :: w in patterns && Covered(a, text, w, k)
  }

  function MaskWord(a: Alphabet, text: string, w: Pattern): string
  {
    seq(|text|, k requires 0 <= k < |text| => if Covered(a, text, w, k) then '*' else text[k])
  }

  // The patterns one after the other, each on the text the one before left.
  function MaskInTurn(a: Alphabet, text: string, patterns: seq<Pattern>): string
  {
    if patterns == [] then text
    else MaskWord(a, MaskInTurn(a, text, patterns[..|patterns| - 1]), patterns[|patterns| - 1])
  }

  // Every position inside a match of any pattern in the text as it came, at once.
  function MaskAtOnce(a: Alphabet, text: string, patterns: seq<Pattern>): string
  {
    seq(|text|, k requires 0 <= k < |text| => if CoveredByAny(a, text, patterns, k) then '*' else text[k])
  }

  function Stars(n: nat): string { seq(n, _ => '*') }

  // ------------------------------------------------ words

  // text[i..j] is a maximal run of word characters.
  predicate WordRun(a: Alphabet, text: string, i: nat, j: nat)
  {
    && i < j <= |text|
    && (forall k :: i <= k < j ==> a.isWord(text[k]))
    && NoWordBefore(a, text, i) && NoWordAt(a, text, j)
  }

  lemma MatchIsRun(a: Alphabet, text: string, w: Pattern, i: nat)
    requires Fits(a, [w]) && Matches(a, text, w, i)
    ensures WordRun(a, text, i, i + |w|)
  {
    assert w in [w];
    forall k | i <= k < i + |w| ensures a.isWord(text[k]) {
      assert a.same(text[i + (k - i)], w[k - i]);
    }
  }

  // Two runs that share a position are the same run.
  lemma RunsCoincide(a: Alphabet, text: string, i: nat, j: nat, i': nat, j': nat, k: nat)
    requires WordRun(a, text, i, j) && WordRun(a, text, i', j')
    requires i <= k < j && i' <= k < j'
    ensures i == i' && j == j'
  {
  }

  // ------------------------------------------------ one pattern after another

  // Masking v leaves w matching exactly where it matched before and v did not.
  lemma MatchAfterMask(a: Alphabet, text: string, v: Pattern, w: Pattern, i: nat)
    requires Fits(a, [v]) && Fits(a, [w])
    ensures Matches(a, MaskWord(a, text, v), w, i) <==> Matches(a, text, w, i) && !Covered(a, text, v, i)
  {
    var masked := MaskWord(a, text, v);
    if Matches(a, masked, w, i) { MatchWasThere(a, text, v, w, i); }
    if Matches(a, text, w, i) && !Covered(a, text, v, i) { MatchStays(a, text, v, w, i); }
  }

  lemma MatchWasThere(a: Alphabet, text: string, v: Pattern, w: Pattern, i: nat)
    requires Fits(a, [v]) && Fits(a, [w]) && Matches(a, MaskWord(a, text, v), w, i)
    ensures Matches(a, text, w, i) && !Covered(a, text, v, i)
  {
    var masked := MaskWord(a, text, v);
    MatchIsRun(a, masked, w, i);
    assert w in [w];
    forall k | i <= k < i + |w| ensures !Covered(a, text, v, k) && text[k] == masked[k] {
      assert a.isWord(masked[k]);
    }
    if i > 0 && Covered(a, text, v, i - 1) { CoverStops(a, text, v, i); }
    if i + |w| < |text| && Covered(a, text, v, i + |w|) { CoverStarts(a, text, v, i + |w|); }
    forall k | 0 <= k < |w| ensures a.same(text[i + k], w[k]) {
      assert a.same(masked[i + k], w[k]);
    }
  }

  // A covered position followed by an uncovered one is not followed by a word character.
  lemma CoverStops(a: Alphabet, text: string, v: Pattern, i: nat)
    requires Fits(a, [v]) && 0 < i <= |text| && Covered(a, text, v, i - 1)
    ensures i < |text| && a.isWord(text[i]) ==> Covered(a, text, v, i)
  {
    var j: nat :| j <= i - 1 < j + |v| && j <= |text| && Matches(a, text, v, j);
    if i < j + |v| { assert j <= i < j + |v| && Matches(a, text, v, j); }
  }

  lemma CoverStarts(a: Alphabet, text: string, v: Pattern, i: nat)
    requires Fits(a, [v]) && 0 < i < |text| && Covered(a, text, v, i)
    ensures a.isWord(text[i - 1]) ==> Covered(a, text, v, i - 1)
  {
    var j: nat :| j <= i < j + |v| && j <= |text| && Matches(a, text, v, j);
    if j < i { assert j <= i - 1 < j + |v| && Matches(a, text, v, j); }
  }

  lemma MatchStays(a: Alphabet, text: string, v: Pattern, w: Pattern, i: nat)
    requires Fits(a, [v]) && Fits(a, [w]) && Matches(a, text, w, i) && !Covered(a, text, v, i)
    ensures Matches(a, MaskWord(a, text, v), w, i)
  {
    var masked := MaskWord(a, text, v);
    MatchIsRun(a, text, w, i);
    forall k | i <= k < i + |w| ensures masked[k] == text[k] { SameCover(a, text, v, i, i + |w|, k); }
    forall k | 0 <= k < |w| ensures a.same(masked[i + k], w[k]) {
      assert a.same(text[i + k], w[k]);
    }
  }

  // A run is covered as a whole or not at all.
  lemma SameCover(a: Alphabet, text: string, v: Pattern, i: nat, j: nat, k: nat)
    requires Fits(a, [v]) && WordRun(a, text, i, j) && i <= k < j
    ensures Covered(a, text, v, k) <==> Covered(a, text, v, i)
  {
    if Covered(a, text, v, k) {
      var m: nat :| m <= k < m + |v| && m <= |text| && Matches(a, text, v, m);
      MatchIsRun(a, text, v, m);
      RunsCoincide(a, text, i, j, m, m + |v|, k);
    }
    if Covered(a, text, v, i) {
      var m: nat :| m <= i < m + |v| && m <= |text| && Matches(a, text, v, m);
      MatchIsRun(a, text, v, m);
      RunsCoincide(a, text, i, j, m, m + |v|, i);
    }
  }

  lemma FitsEach(a: Alphabet, patterns: seq<Pattern>, w: Pattern)
    requires Fits(a, patterns) && w in patterns
    ensures Fits(a, [w])
  {
  }

  // A match of w in the text masked in turn is a match in the text that no pattern covered.
  lemma {:induction false} MatchInTurn(a: Alphabet, text: string, patterns: seq<Pattern>, w: Pattern, i: nat)
    requires Fits(a, patterns) && Fits(a, [w])
    ensures Matches(a, MaskInTurn(a, text, patterns), w, i)
       <==> Matches(a, text, w, i) && !CoveredByAny(a, text, patterns, i)
    ensures |MaskInTurn(a, text, patterns)| == |text|
    decreases |patterns|, 0
  {
    if patterns != [] {
      var p, v := patterns[..|patterns| - 1], patterns[|patterns| - 1];
      assert patterns == p + [v];
      var before := MaskInTurn(a, text, p);
      MatchInTurn(a, text, p, w, i);
      FitsEach(a, patterns, v);
      MatchAfterMask(a, before, v, w, i);
      AnyMore(a, text, p, v, i);
      if Matches(a, text, w, i) && !CoveredByAny(a, text, p, i) {
        CoverInTurn(a, text, p, v, w, i);
      }
    }
  }

  lemma AnyMore(a: Alphabet, text: string, p: seq<Pattern>, v: Pattern, k: nat)
    ensures CoveredByAny(a, text, p + [v], k) <==> CoveredByAny(a, text, p, k) || Covered(a, text, v, k)
  {
    if CoveredByAny(a, text, p + [v], k) {
      var w :| w in p + [v] && Covered(a, text, w, k);
    }
    if Covered(a, text, v, k) { assert v in p + [v]; }
  }

  // Where w matches and nothing is covered yet, v covers the start after masking iff it did before.
  lemma CoverInTurn(a: Alphabet, text: string, p: seq<Pattern>, v: Pattern, w: Pattern, i: nat)
    requires Fits(a, p) && Fits(a, [v]) && Fits(a, [w])
    requires Matches(a, text, w, i) && !CoveredByAny(a, text, p, i)
    ensures Covered(a, MaskInTurn(a, text, p), v, i) <==> Covered(a, text, v, i)
    decreases |p|, 1
  {
    hide *;
    var before := MaskInTurn(a, text, p);
    MatchIsRun(a, text, w, i);
    if Covered(a, before, v, i) {
      var m := CoverFrom(a, before, v, i);
      MatchInTurn(a, text, p, v, m);
      MatchCovers(a, text, v, m, i);
    }
    if Covered(a, text, v, i) {
      var m := CoverFrom(a, text, v, i);
      MatchIsRun(a, text, v, m);
      RunsCoincide(a, text, i, i + |w|, m, m + |v|, i);
      MatchInTurn(a, text, p, v, m);
      MatchCovers(a, before, v, m, i);
    }
  }

  // The match a covered position lies in, and the other way round.
  lemma CoverFrom(a: Alphabet, text: string, w: Pattern, k: nat) returns (m: nat)
    requires Covered(a, text, w, k)
    ensures m <= k < m + |w| && m <= |text| && Matches(a, text, w, m)
  {
    m :| m <= k < m + |w| && m <= |text| && Matches(a, text, w, m);
  }

  lemma MatchCovers(a: Alphabet, text: string, w: Pattern, m: nat, k: nat)
    requires m <= k < m + |w| && Matches(a, text, w, m)
    ensures Covered(a, text, w, k)
  {
  }

  // ------------------------------------------------ what masking does

  // Masking the patterns in turn masks exactly the positions inside a match of some pattern in
  // the text as it came.
  lemma {:induction false} InTurnIsAtOnce(a: Alphabet, text: string, patterns: seq<Pattern>)
    requires Fits(a, patterns)
    ensures MaskInTurn(a, text, patterns) == MaskAtOnce(a, text, patterns)
    decreases |patterns|
  {
    if patterns == [] {
      assert text == MaskAtOnce(a, text, []);
    } else {
      var p, v := patterns[..|patterns| - 1], patterns[|patterns| - 1];
      assert patterns == p + [v];
      InTurnIsAtOnce(a, text, p);
      FitsEach(a, patterns, v);
      var before := MaskInTurn(a, text, p);
      var after := MaskInTurn(a, text, patterns);
      forall k | 0 <= k < |text| ensures after[k] == MaskAtOnce(a, text, patterns)[k] {
        AnyMore(a, text, p, v, k);
        CoverOfNext(a, text, p, v, k);
      }
    }
  }

  lemma CoverOfNext(a: Alphabet, text: string, p: seq<Pattern>, v: Pattern, k: nat)
    requires Fits(a, p) && Fits(a, [v]) && k < |text|
    ensures CoveredByAny(a, text, p, k) || Covered(a, MaskInTurn(a, text, p), v, k)
       <==> CoveredByAny(a, text, p, k) || Covered(a, text, v, k)
  {
    hide *;
    var before := MaskInTurn(a, text, p);
    if Covered(a, before, v, k) {
      var m := CoverFrom(a, before, v, k);
      MatchInTurn(a, text, p, v, m);
      MatchCovers(a, text, v, m, k);
    }
    if Covered(a, text, v, k) {
      var m := CoverFrom(a, text, v, k);
      MatchInTurn(a, text, p, v, m);
      MatchIsRun(a, text, v, m);
      if CoveredByAny(a, text, p, m) {
        CoverSpreads(a, text, p, m, m + |v|, k);
      } else {
        MatchCovers(a, before, v, m, k);
      }
    }
  }

  // Cover of a run by some pattern is cover of all of it.
  lemma CoverSpreads(a: Alphabet, text: string, p: seq<Pattern>, i: nat, j: nat, k: nat)
    requires Fits(a, p) && WordRun(a, text, i, j) && i <= k < j && CoveredByAny(a, text, p, i)
    ensures CoveredByAny(a, text, p, k)
  {
    var w :| w in p && Covered(a, text, w, i);
    FitsEach(a, p, w);
    SameCover(a, text, w, i, j, k);
  }

  // The order of the patterns, and how often one is listed, does not matter.
  lemma OrderDoesNotMatter(a: Alphabet, text: string, p: seq<Pattern>, q: seq<Pattern>)
    requires Fits(a, p) && Fits(a, q) && forall w :: w in p <==> w in q
    ensures MaskInTurn(a, text, p) == MaskInTurn(a, text, q)
  {
    InTurnIsAtOnce(a, text, p);
    InTurnIsAtOnce(a, text, q);
    assert forall k: nat :: CoveredByAny(a, text, p, k) <==> CoveredByAny(a, text, q, k);
    assert MaskAtOnce(a, text, p) == MaskAtOnce(a, text, q);
  }

  // No pattern matches the masked text anywhere.
  lemma NothingLeft(a: Alphabet, text: string, patterns: seq<Pattern>, w: Pattern, i: nat)
    requires Fits(a, patterns) && w in patterns
    ensures !Matches(a, MaskInTurn(a, text, patterns), w, i)
  {
    FitsEach(a, patterns, w);
    MatchInTurn(a, text, patterns, w, i);
    assert w != "";
    assert Matches(a, text, w, i) ==> Covered(a, text, w, i);
  }

  lemma MaskingTwice(a: Alphabet, text: string, patterns: seq<Pattern>)
    requires Fits(a, patterns)
    ensures MaskInTurn(a, MaskInTurn(a, text, patterns), patterns) == MaskInTurn(a, text, patterns)
  {
    var masked := MaskInTurn(a, text, patterns);
    InTurnIsAtOnce(a, masked, patterns);
    forall k: nat ensures !CoveredByAny(a, masked, patterns, k) {
      forall w, i: nat | w in patterns && i <= k < i + |w| && i <= |masked| ensures !Matches(a, masked, w, i) {
        NothingLeft(a, text, patterns, w, i);
      }
    }
    assert MaskAtOnce(a, masked, patterns) == masked;
  }

  // Whether some pattern matches somewhere.
  predicate AnyMatch(a: Alphabet, text: string, patterns: seq<Pattern>)
  {
    exists k :: 0 <= k < |text| && CoveredByAny(a, text, patterns, k)
  }

  // The text changes exactly when a pattern matches, and only from word characters to asterisks.
  lemma ChangesOnlyMatches(a: Alphabet, text: string, patterns: seq<Pattern>)
    requires Fits(a, patterns)
    ensures |MaskInTurn(a, text, patterns)| == |text|
    ensures MaskInTurn(a, text, patterns) != text <==> AnyMatch(a, text, patterns)
    ensures forall k :: 0 <= k < |text| && MaskInTurn(a, text, patterns)[k] != text[k] ==>
              MaskInTurn(a, text, patterns)[k] == '*' && a.isWord(text[k]) && CoveredByAny(a, text, patterns, k)
  {
    InTurnIsAtOnce(a, text, patterns);
    forall k: nat | k < |text| && CoveredByAny(a, text, patterns, k) ensures a.isWord(text[k]) && text[k] != '*' {
      var w :| w in patterns && Covered(a, text, w, k);
      FitsEach(a, patterns, w);
      var i: nat :| i <= k < i + |w| && i <= |text| && Matches(a, text, w, i);
      MatchIsRun(a, text, w, i);
    }
    if AnyMatch(a, text, patterns) {
      var k :| 0 <= k < |text| && CoveredByAny(a, text, patterns, k);
      assert MaskAtOnce(a, text, patterns)[k] != text[k];
    } else {
      assert MaskAtOnce(a, text, patterns) == text;
    }
  }

  // ------------------------------------------------ the hard first pass

  // A hard pattern: which strings it accepts, and whether it asks for a word boundary at both ends.
  datatype Hard = Hard(accepts: string -> bool, bounded: bool)

  // No accepted string holds an asterisk, and one with boundaries begins and ends inside words.
  ghost predicate HardFits(a: Alphabet, h: Hard)
  {
    forall s :: h.accepts(s) ==>
      '*' !in s && s != "" && (h.bounded ==> a.isWord(s[0]) && a.isWord(s[|s| - 1]))
  }

  predicate Boundary(a: Alphabet, text: string, i: nat)
    requires i <= |text|
  {
    (i > 0 && a.isWord(text[i - 1])) != (i < |text| && a.isWord(text[i]))
  }

  predicate HardMatches(a: Alphabet, text: string, h: Hard, i: nat, j: nat)
  {
    i <= j <= |text| && h.accepts(text[i..j]) && (h.bounded ==> Boundary(a, text, i) && Boundary(a, text, j))
  }

  predicate Trips(a: Alphabet, text: string, h: Hard)
  {
    exists i: nat, j: nat :: i <= |text| && j <= |text| && HardMatches(a, text, h, i, j)
  }

  // deterministic_first_pass_message
  predicate FirstPass(a: Alphabet, text: string, hards: seq<Hard>)
  {
    forall n :: 0 <= n < |hards| ==> !Trips(a, text, hards[n])
  }

  // No position in i..j is inside a soft match.
  predicate Untouched(a: Alphabet, text: string, patterns: seq<Pattern>, i: nat, j: nat)
  {
    forall k: nat :: i <= k < j ==> !CoveredByAny(a, text, patterns, k)
  }

  // Masking keeps exactly the hard matches that no soft match overlaps, and makes no new ones.
  lemma HardMatchAfterMask(a: Alphabet, text: string, patterns: seq<Pattern>, h: Hard, i: nat, j: nat)
    requires Fits(a, patterns) && HardFits(a, h)
    ensures HardMatches(a, MaskInTurn(a, text, patterns), h, i, j)
       <==> HardMatches(a, text, h, i, j) && Untouched(a, text, patterns, i, j)
  {
    hide CoveredByAny, WordRun;
    InTurnIsAtOnce(a, text, patterns);
    var masked := MaskAtOnce(a, text, patterns);
    if i <= j <= |text| {
      if Untouched(a, text, patterns, i, j) {
        assert masked[i..j] == text[i..j];
      } else {
        var k: nat :| i <= k < j && CoveredByAny(a, text, patterns, k);
        assert masked[i..j][k - i] == '*';
      }
      if h.bounded && i < j && Untouched(a, text, patterns, i, j) && a.isWord(text[i]) && a.isWord(text[j - 1]) {
        BoundaryStays(a, text, patterns, i, j);
      }
      if h.accepts(text[i..j]) { assert text[i..j][0] == text[i] && text[i..j][j - i - 1] == text[j - 1]; }
    }
  }

  // The boundaries of an untouched stretch that begins and ends inside words do not change.
  lemma BoundaryStays(a: Alphabet, text: string, patterns: seq<Pattern>, i: nat, j: nat)
    requires Fits(a, patterns) && i < j <= |text| && Untouched(a, text, patterns, i, j)
    requires a.isWord(text[i]) && a.isWord(text[j - 1])
    ensures Boundary(a, MaskAtOnce(a, text, patterns), i) <==> Boundary(a, text, i)
    ensures Boundary(a, MaskAtOnce(a, text, patterns), j) <==> Boundary(a, text, j)
  {
    if i > 0 && CoveredByAny(a, text, patterns, i - 1) { AnyCoverStops(a, text, patterns, i); }
    if j < |text| && CoveredByAny(a, text, patterns, j) { AnyCoverStarts(a, text, patterns, j); }
    assert !CoveredByAny(a, text, patterns, i) && !CoveredByAny(a, text, patterns, j - 1);
    hide CoveredByAny;
  }

  lemma AnyCoverStops(a: Alphabet, text: string, patterns: seq<Pattern>, i: nat)
    requires Fits(a, patterns) && 0 < i < |text| && CoveredByAny(a, text, patterns, i - 1) && a.isWord(text[i])
    ensures CoveredByAny(a, text, patterns, i)
  {
    var w :| w in patterns && Covered(a, text, w, i - 1);
    FitsEach(a, patterns, w);
    CoverStops(a, text, w, i);
  }

  lemma AnyCoverStarts(a: Alphabet, text: string, patterns: seq<Pattern>, i: nat)
    requires Fits(a, patterns) && 0 < i < |text| && CoveredByAny(a, text, patterns, i) && a.isWord(text[i - 1])
    ensures CoveredByAny(a, text, patterns, i - 1)
  {
    var w :| w in patterns && Covered(a, text, w, i);
    FitsEach(a, patterns, w);
    CoverStarts(a, text, w, i);
  }

  ghost predicate SurvivingMatch(a: Alphabet, text: string, patterns: seq<Pattern>, h: Hard)
  {
    exists i: nat, j: nat :: HardMatches(a, text, h, i, j) && Untouched(a, text, patterns, i, j)
  }

  // A clean message stays clean when masked; a message that trips the first pass still does exactly
  // when some hard match overlaps no soft match.
  lemma FirstPassAfterMask(a: Alphabet, text: string, patterns: seq<Pattern>, hards: seq<Hard>)
    requires Fits(a, patterns) && forall n :: 0 <= n < |hards| ==> HardFits(a, hards[n])
    ensures FirstPass(a, text, hards) ==> FirstPass(a, MaskInTurn(a, text, patterns), hards)
    ensures FirstPass(a, MaskInTurn(a, text, patterns), hards) <==>
              forall n :: 0 <= n < |hards| ==> !SurvivingMatch(a, text, patterns, hards[n])
  {
    hide HardMatches, Untouched, HardFits, MaskInTurn;
    var masked := MaskInTurn(a, text, patterns);
    forall n | 0 <= n < |hards|
      ensures Trips(a, masked, hards[n]) <==> SurvivingMatch(a, text, patterns, hards[n])
      ensures SurvivingMatch(a, text, patterns, hards[n]) ==> Trips(a, text, hards[n])
    {
      TripsIffSurvives(a, text, patterns, hards[n]);
    }
  }

  lemma TripsIffSurvives(a: Alphabet, text: string, patterns: seq<Pattern>, h: Hard)
    requires Fits(a, patterns) && HardFits(a, h)
    ensures Trips(a, MaskInTurn(a, text, patterns), h) <==> SurvivingMatch(a, text, patterns, h)
    ensures SurvivingMatch(a, text, patterns, h) ==> Trips(a, text, h)
  {
    hide Untouched, HardFits, MaskInTurn, Fits, Boundary;
    var masked := MaskInTurn(a, text, patterns);
    if Trips(a, masked, h) {
      var i: nat, j: nat :| i <= |masked| && j <= |masked| && HardMatches(a, masked, h, i, j);
      HardMatchAfterMask(a, text, patterns, h, i, j);
    }
    if SurvivingMatch(a, text, patterns, h) {
      var i: nat, j: nat :| HardMatches(a, text, h, i, j) && Untouched(a, text, patterns, i, j);
      HardMatchAfterMask(a, text, patterns, h, i, j);
    }
  }

  // ------------------------------------------------ the loops

  // pattern.subn: scans left to right and goes on behind each match.
  method Substitute(a: Alphabet, text: string, w: Pattern) returns (out: string, count: nat)
    requires Fits(a, [w])
    ensures out == MaskWord(a, text, w)
    ensures count > 0 <==> exists i: nat :: i <= |text| && Matches(a, text, w, i)
  {
    out, count := "", 0;
    var i := 0;
    while i < |text|
      invariant 0 <= i <= |text| && |out| == i
      invariant forall k: nat :: k < i ==> out[k] == MaskWord(a, text, w)[k]
      invariant forall m: nat :: m < i && Matches(a, text, w, m) ==> m + |w| <= i
      invariant count > 0 <==> exists m: nat :: m < i && Matches(a, text, w, m)
    {
      if Matches(a, text, w, i) {
        MatchIsRun(a, text, w, i);
        forall k: nat | i <= k < i + |w| ensures Covered(a, text, w, k) { }
        forall m: nat | i < m < i + |w| ensures !Matches(a, text, w, m) { NoOverlap(a, text, w, i, m); }
        out := out + Stars(|w|);
        count := count + 1;
        i := i + |w|;
      } else {
        NotCovered(a, text, w, i);
        out := out + [text[i]];
        i := i + 1;
      }
    }
    forall m: nat | m <= |text| && Matches(a, text, w, m) ensures m < |text| { assert w in [w]; }
  }

  lemma NoOverlap(a: Alphabet, text: string, w: Pattern, i: nat, m: nat)
    requires Fits(a, [w]) && WordRun(a, text, i, i + |w|) && i < m < i + |w|
    ensures !Matches(a, text, w, m)
  {
    assert a.isWord(text[m - 1]);
  }

  lemma NotCovered(a: Alphabet, text: string, w: Pattern, i: nat)
    requires i < |text| && !Matches(a, text, w, i)
    requires forall m: nat :: m < i && Matches(a, text, w, m) ==> m + |w| <= i
    ensures !Covered(a, text, w, i)
  {
  }

  // deterministic_span_mask
  method DeterministicSpanMask(a: Alphabet, text: string, patterns: seq<Pattern>)
    returns (masked: string, didMask: bool)
    requires Fits(a, patterns)
    ensures masked == MaskInTurn(a, text, patterns)
    ensures masked == MaskAtOnce(a, text, patterns)
    ensures |masked| == |text| && (didMask <==> masked != text)
  {
    masked, didMask := text, false;
    for n := 0 to |patterns|
      invariant masked == MaskInTurn(a, text, patterns[..n])
      invariant |masked| == |text| && (didMask <==> AnyMatch(a, text, patterns[..n]))
    {
      var w := patterns[n];
      FitsEach(a, patterns, w);
      assert patterns[..n + 1] == patterns[..n] + [w];
      CountDecides(a, text, patterns[..n], w);
      var next, count := Substitute(a, masked, w);
      masked := next;
      if count > 0 { didMask := true; }
    }
    assert patterns[..|patterns|] == patterns;
    InTurnIsAtOnce(a, text, patterns);
    ChangesOnlyMatches(a, text, patterns);
  }

  lemma CountDecides(a: Alphabet, text: string, p: seq<Pattern>, w: Pattern)
    requires Fits(a, p) && Fits(a, [w])
    ensures var before := MaskInTurn(a, text, p);
            (AnyMatch(a, text, p) || exists i: nat :: i <= |before| && Matches(a, before, w, i))
            <==> AnyMatch(a, text, p + [w])
  {
    var before := MaskInTurn(a, text, p);
    ChangesOnlyMatches(a, text, p);
    assert w in [w];
    if AnyMatch(a, text, p) {
      var k :| 0 <= k < |text| && CoveredByAny(a, text, p, k);
      AnyMore(a, text, p, w, k);
    }
    if i: nat :| i <= |before| && Matches(a, before, w, i) {
      MatchInTurn(a, text, p, w, i);
      assert Covered(a, text, w, i);
      AnyMore(a, text, p, w, i);
      assert CoveredByAny(a, text, p + [w], i) && i < |text|;
    }
    if AnyMatch(a, text, p + [w]) && !AnyMatch(a, text, p) {
      var k :| 0 <= k < |text| && CoveredByAny(a, text, p + [w], k);
      AnyMore(a, text, p, w, k);
      assert before == text;
    }
  }
}
