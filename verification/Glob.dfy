/**
  The one-wildcard glob of crates/kaas-ui-auth/src/policy.rs. `Glob` says what a pattern means;
  `Matches` is the source's leftmost-greedy loop, proved to decide exactly that.
*/
module GlobMatching {
  import opened Text

  /** The language of a pattern: `*` stands for any text, every other character for itself. */
  predicate Glob(pattern: string, value: string)
    decreases |pattern| + |value|
  {
    if pattern == [] then value == []
    else if pattern[0] == '*' then
      Glob(pattern[1..], value) || (value != [] && Glob(pattern, value[1..]))
    else
      value != [] && value[0] == pattern[0] && Glob(pattern[1..], value[1..])
  }

  // ----- the same language, piece by piece -----

  /** The first piece is anchored here, and the others follow with anything between. */
  predicate PartsMatch(parts: seq<string>, value: string)
    requires parts != []
    decreases |parts|, 0
  {
    parts[0] <= value && TailMatches(parts[1..], value[|parts[0]|..])
  }

  /** Every piece of `tail` is found in order behind its own `*`, the last one at the end. */
  predicate TailMatches(tail: seq<string>, value: string)
    decreases |tail|, 1
  {
    if tail == [] then value == []
    else exists i | 0 <= i <= |value| :: PartsMatch(tail, value[i..])
  }

  /** A tail that starts behind a `*` may start earlier. */
  lemma TailMatchesEarlier(tail: seq<string>, value: string, i: nat)
    requires tail != [] && i <= |value| && TailMatches(tail, value[i..])
    ensures TailMatches(tail, value)
  {
    var j :| 0 <= j <= |value[i..]| && PartsMatch(tail, value[i..][j..]);
    assert value[i..][j..] == value[i + j..];
  }

  lemma {:induction false} GlobIsPartsMatch(pattern: string, value: string)
    ensures Glob(pattern, value) <==> PartsMatch(Split(pattern, '*'), value)
    decreases |pattern| + |value|
  {
    if pattern != [] {
      var rest := Split(pattern[1..], '*');
      if pattern[0] == '*' {
        assert Split(pattern, '*')[1..] == rest;
        GlobIsPartsMatch(pattern[1..], value);
        assert value[0..] == value;
        if value != [] {
          GlobIsPartsMatch(pattern, value[1..]);
          StarConsumesOne(rest, value);
        }
      } else if value != [] {
        GlobIsPartsMatch(pattern[1..], value[1..]);
        LiteralConsumesOne(pattern[0], rest, value);
      }
    }
  }

  lemma StarConsumesOne(rest: seq<string>, value: string)
    requires rest != [] && value != []
    ensures TailMatches(rest, value) <==> PartsMatch(rest, value) || TailMatches(rest, value[1..])
  {
    assert value[0..] == value;
    if TailMatches(rest, value) && !PartsMatch(rest, value) {
      var i :| 0 <= i <= |value| && PartsMatch(rest, value[i..]);
      assert value[i..] == value[1..][i - 1..];
    }
    if TailMatches(rest, value[1..]) {
      TailMatchesEarlier(rest, value, 1);
    }
  }

  lemma LiteralConsumesOne(c: char, rest: seq<string>, value: string)
    requires rest != [] && value != []
    ensures PartsMatch([[c] + rest[0]] + rest[1..], value)
       <==> c == value[0] && PartsMatch(rest, value[1..])
  {
    var parts := [[c] + rest[0]] + rest[1..];
    assert parts[1..] == rest[1..];
    if parts[0] <= value || (c == value[0] && rest[0] <= value[1..]) {
      assert value == [value[0]] + value[1..];
      assert parts[0] <= value ==> parts[0] == value[..|parts[0]|] && parts[0][1..] == rest[0];
      assert |parts[0]| <= |value|;
      assert value[|parts[0]|..] == value[1..][|rest[0]|..];
    }
  }

  // ----- why leftmost is enough -----

  /** The piece that follows a `*` matched somewhere, so it occurs there. */
  lemma PieceOccurs(tail: seq<string>, rest: string, i: nat)
    requires |tail| >= 2 && i <= |rest| && PartsMatch(tail, rest[i..])
    ensures At(rest, tail[0], i) && TailMatches(tail[1..], rest[i + |tail[0]|..])
  {
    assert tail[0] == rest[i..][..|tail[0]|] == rest[i..i + |tail[0]|];
    assert rest[i..][|tail[0]|..] == rest[i + |tail[0]|..];
  }

  lemma PieceMatches(tail: seq<string>, rest: string, i: nat)
    requires |tail| >= 2 && At(rest, tail[0], i) && TailMatches(tail[1..], rest[i + |tail[0]|..])
    ensures TailMatches(tail, rest)
  {
    assert rest[i..][..|tail[0]|] == tail[0];
    assert rest[i..][|tail[0]|..] == rest[i + |tail[0]|..];
    assert PartsMatch(tail, rest[i..]);
  }

  /** The leftmost occurrence of the next piece loses no match: soundness and completeness of one step. */
  lemma GreedyStep(tail: seq<string>, rest: string)
    requires |tail| >= 2
    ensures TailMatches(tail, rest) <==>
            var found := Find(rest, tail[0]);
            found.Some? && TailMatches(tail[1..], rest[found.value + |tail[0]|..])
  {
    var found := Find(rest, tail[0]);
    if TailMatches(tail, rest) {
      var i :| 0 <= i <= |rest| && PartsMatch(tail, rest[i..]);
      LeftmostServes(tail, rest, i);
    } else if found.Some? && TailMatches(tail[1..], rest[found.value + |tail[0]|..]) {
      PieceMatches(tail, rest, found.value);
    }
  }

  lemma LeftmostServes(tail: seq<string>, rest: string, i: nat)
    requires |tail| >= 2 && i <= |rest| && PartsMatch(tail, rest[i..])
    ensures var found := Find(rest, tail[0]);
            found.Some? && TailMatches(tail[1..], rest[found.value + |tail[0]|..])
  {
    hide TailMatches, PartsMatch, At;
    PieceOccurs(tail, rest, i);
    var found := Find(rest, tail[0]);
    Occurrences(rest, tail[0], found.value);
    Occurrences(rest, tail[0], i);
    var after := rest[found.value + |tail[0]|..];
    assert rest[i + |tail[0]|..] == after[i - found.value..];
    TailMatchesEarlier(tail[1..], after, i - found.value);
  }

  lemma Occurrences(s: string, piece: string, i: nat)
    requires At(s, piece, i)
    ensures i + |piece| <= |s|
  {
  }

  /** Behind the final `*` only the end of the value counts. */
  lemma LastPiece(last: string, rest: string)
    ensures TailMatches([last], rest) <==> EndsWith(rest, last)
  {
    hide TailMatches, EndsWith;
    if TailMatches([last], rest) {
      LastPieceEnds(last, rest);
    }
    if EndsWith(rest, last) {
      EndIsLastPiece(last, rest);
    }
  }

  /** One piece alone matches its own text and nothing else. */
  lemma OnePiece(last: string, value: string)
    ensures PartsMatch([last], value) <==> value == last
  {
    assert [last][1..] == [];
    if last <= value {
      assert value == last + value[|last|..];
    }
  }

  lemma LastPieceEnds(last: string, rest: string)
    requires TailMatches([last], rest)
    ensures EndsWith(rest, last)
  {
    hide PartsMatch;
    var i :| 0 <= i <= |rest| && PartsMatch([last], rest[i..]);
    OnePiece(last, rest[i..]);
  }

  lemma EndIsLastPiece(last: string, rest: string)
    requires EndsWith(rest, last)
    ensures TailMatches([last], rest)
  {
    hide PartsMatch;
    OnePiece(last, rest[|rest| - |last|..]);
  }

  lemma NoTail(rest: string)
    ensures TailMatches([], rest) <==> rest == []
  {
  }

  lemma EmptyPieceIsHere(rest: string)
    ensures Find(rest, []) == Some(0)
    ensures rest[0..] == rest
  {
    assert At(rest, [], 0);
  }

  /** The source's matcher: strip the first piece, find the middle ones leftmost, anchor the last. */
  method Matches(pattern: string, value: string) returns (matched: bool)
    ensures matched == Glob(pattern, value)
  {
    hide TailMatches, Find, Glob, At;
    GlobIsPartsMatch(pattern, value);
    var segments := Split(pattern, '*');
    var first := segments[0];
    if !(first <= value) {
      return false;
    }
    var rest := value[|first|..];
    var tail := segments[1..];
    if tail == [] {
      NoTail(rest);
      return rest == [];
    }
    var last := tail[|tail| - 1];
    var middle := tail[..|tail| - 1];
    var i := 0;
    while i < |middle|
      invariant i <= |middle|
      invariant Glob(pattern, value) <==> TailMatches(tail[i..], rest)
    {
      var segment := middle[i];
      GreedyStep(tail[i..], rest);
      assert tail[i..][1..] == tail[i + 1..];
      var found := Find(rest, segment);
      EmptyPieceIsHere(rest);
      if segment != [] {
        if found.None? {
          return false;
        }
        Occurrences(rest, segment, found.value);
        rest := rest[found.value + |segment|..];
      }
      i := i + 1;
    }
    LastPiece(last, rest);
    assert tail[i..] == [last];
    return last == [] || EndsWith(rest, last);
  }

  /** Every pattern matches its own text: the witness behind "some name is permitted". */
  lemma {:induction false} PatternMatchesItself(pattern: string)
    ensures Glob(pattern, pattern)
  {
    if pattern != [] {
      PatternMatchesItself(pattern[1..]);
    }
  }

  /** A pattern without `*` is the exact name, so a role scoped to a name reaches no other. */
  lemma {:induction false} LiteralPatternIsExact(pattern: string, value: string)
    requires '*' !in pattern
    ensures Glob(pattern, value) <==> pattern == value
  {
    if pattern != [] && value != [] {
      LiteralPatternIsExact(pattern[1..], value[1..]);
      assert pattern == [pattern[0]] + pattern[1..] && value == [value[0]] + value[1..];
    }
  }

  /**
    A `*` anywhere stands for any text: a pattern with one matches a value that can be cut so that its front
    matches what is before the `*` and its end what is after it. With the patterns that have none, this says of
    every pattern what it matches.
  */
  lemma {:induction false} StarIsAnyText(before: string, after: string, value: string)
    ensures Glob(before + "*" + after, value)
       <==> exists i, j | 0 <= i <= j <= |value| :: Glob(before, value[..i]) && Glob(after, value[j..])
    decreases |before| + |value|
  {
    var pattern := before + "*" + after;
    if before == [] {
      assert pattern == "*" + after;
      LeadingStar(after, value);
    } else {
      assert pattern == [before[0]] + (before[1..] + "*" + after);
      if before[0] == '*' {
        StarIsAnyText(before[1..], after, value);
        if value != [] {
          StarIsAnyText(before, after, value[1..]);
        }
        StarThenCut(before, after, value);
      } else if value != [] {
        StarIsAnyText(before[1..], after, value[1..]);
        LiteralThenCut(before, after, value);
      }
    }
  }

  lemma {:induction false} LeadingStar(after: string, value: string)
    ensures Glob("*" + after, value)
       <==> exists i, j | 0 <= i <= j <= |value| :: Glob([], value[..i]) && Glob(after, value[j..])
  {
    assert ("*" + after)[1..] == after;
    assert value[..0] == [] && value[0..] == value;
    if value != [] {
      LeadingStar(after, value[1..]);
      if j :| 0 <= j <= |value[1..]| && Glob(after, value[1..][j..]) {
        assert value[1..][j..] == value[j + 1..];
      }
      if j :| 1 <= j <= |value| && Glob(after, value[j..]) {
        assert value[1..][j - 1..] == value[j..] && value[1..][..0] == [];
      }
    }
  }

  /** A cut of the value for a front that starts with a `*`: the `*` is spent, or takes one more character. */
  lemma StarThenCut(before: string, after: string, value: string)
    requires before != [] && before[0] == '*'
    ensures (exists i, j | 0 <= i <= j <= |value| :: Glob(before, value[..i]) && Glob(after, value[j..]))
       <==> || (exists i, j | 0 <= i <= j <= |value| :: Glob(before[1..], value[..i]) && Glob(after, value[j..]))
            || (value != [] && exists i, j | 0 <= i <= j <= |value[1..]| ::
                  Glob(before, value[1..][..i]) && Glob(after, value[1..][j..]))
  {
    if i, j :| 0 <= i <= j <= |value| && Glob(before, value[..i]) && Glob(after, value[j..]) {
      if !Glob(before[1..], value[..i]) {
        assert value[..i][1..] == value[1..][..i - 1] && value[1..][j - 1..] == value[j..];
      }
    }
    if value != [] {
      if i, j :| 0 <= i <= j <= |value[1..]| && Glob(before, value[1..][..i]) && Glob(after, value[1..][j..]) {
        assert value[..i + 1][1..] == value[1..][..i] && value[j + 1..] == value[1..][j..];
        assert Glob(before, value[..i + 1]);
      }
    }
  }

  lemma LiteralThenCut(before: string, after: string, value: string)
    requires before != [] && before[0] != '*' && value != []
    ensures (exists i, j | 0 <= i <= j <= |value| :: Glob(before, value[..i]) && Glob(after, value[j..]))
       <==> && value[0] == before[0]
            && exists i, j | 0 <= i <= j <= |value[1..]| ::
                 Glob(before[1..], value[1..][..i]) && Glob(after, value[1..][j..])
  {
    if i, j :| 0 <= i <= j <= |value| && Glob(before, value[..i]) && Glob(after, value[j..]) {
      assert value[..i][1..] == value[1..][..i - 1] && value[1..][j - 1..] == value[j..];
    }
    if i, j :| 0 <= i <= j <= |value[1..]| && Glob(before[1..], value[1..][..i]) && Glob(after, value[1..][j..]) {
      assert value[..i + 1][1..] == value[1..][..i] && value[j + 1..] == value[1..][j..];
      if value[0] == before[0] {
        assert Glob(before, value[..i + 1]);
      }
    }
  }

  /** Anchored at both ends: the text before the first `*` starts the value, the text after the last ends it. */
  lemma {:induction false} AnchoredAtBothEnds(prefix: string, suffix: string, value: string)
    requires '*' !in prefix && '*' !in suffix
    ensures Glob(prefix + "*" + suffix, value)
       <==> prefix <= value && |prefix| + |suffix| <= |value| && EndsWith(value, suffix)
  {
    var pattern := prefix + "*" + suffix;
    GlobIsPartsMatch(pattern, value);
    SplitAppend(prefix, suffix, '*');
    SplitOfOnePiece(prefix, '*');
    SplitOfOnePiece(suffix, '*');
    assert Split(pattern, '*') == [prefix, suffix];
    if prefix <= value {
      var rest := value[|prefix|..];
      LastPiece(suffix, rest);
      assert |suffix| <= |rest| ==> rest[|rest| - |suffix|..] == value[|value| - |suffix|..];
    }
  }
}
