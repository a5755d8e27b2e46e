/**
  Index arithmetic of the single-elimination bracket.

  A bracket for `maxPlayers = 2^totalRounds` players has `maxPlayers >> (r + 1)`
  matches in round `r`, and all `maxPlayers - 1` match results live in one flat
  array, round after round. This module holds that arithmetic as pure functions
  over integers and sequences: the flat index of a match, its inverse, the
  cursor step from one match to the next, and the lookup of the two players
  of a match.
*/
module Bracket {

  /** 2^k. */
  function Pow2(k: nat): (p: nat)
    ensures p >= 1
  {
    if k == 0 then 1 else 2 * Pow2(k - 1)
  }

  /** The arithmetic right shift `x >> k` of C#: k times a floor halving.
      (Dafny's `/` by a positive divisor rounds toward negative infinity, as the shift does.) */
  function Shr(x: int, k: nat): int
  {
    if k == 0 then x else Shr(x, k - 1) / 2
  }

  /** The source's configuration assumption: at least two players, and a power of two. */
  predicate ValidSize(maxPlayers: int, totalRounds: nat)
  {
    totalRounds >= 1 && maxPlayers == Pow2(totalRounds)
  }

  /** `maxPlayers >> (round + 1)`: the number of matches in a round. */
  function MatchesInRound(maxPlayers: int, round: nat): int
  {
    Shr(maxPlayers, round + 1)
  }

  /** The number of matches in all rounds before `round` (the loop of GetMatchIndex). */
  function MatchOffset(maxPlayers: int, round: nat): int
  {
    if round == 0 then 0 else MatchOffset(maxPlayers, round - 1) + MatchesInRound(maxPlayers, round - 1)
  }

  /** The flat index in the result array of match `m` of round `round`. */
  function MatchIndex(maxPlayers: int, round: nat, m: int): int
  {
    MatchOffset(maxPlayers, round) + m
  }

  /** (round, match) names a match of the bracket. */
  predicate InBracket(maxPlayers: int, totalRounds: nat, round: nat, m: int)
  {
    round < totalRounds && 0 <= m < MatchesInRound(maxPlayers, round)
  }

  /** The cursor step after a recorded result: next match, or first match of the next round. */
  function Advance(maxPlayers: int, round: nat, m: nat): (next: (nat, nat))
    ensures next == (round, m + 1) || next == (round + 1, 0)
    ensures next.0 == round <==> m + 1 < MatchesInRound(maxPlayers, round)
  {
    if m + 1 >= MatchesInRound(maxPlayers, round) then (round + 1, 0) else (round, m + 1)
  }

  /** Where the cursor stands after `k` results have been recorded from (0, 0). */
  function CursorAfter(maxPlayers: int, k: nat): (nat, nat)
  {
    if k == 0 then (0, 0)
    else
      var c := CursorAfter(maxPlayers, k - 1);
      Advance(maxPlayers, c.0, c.1)
  }

  /** The match of the previous round that feeds position `position` of match `m`. */
  function FeederMatch(m: int, position: int): int
  {
    if position == 0 then m * 2 else m * 2 + 1
  }

  /** GetPlayerIndex: in round 0 the roster index `m * 2 + position`; in a later
      round the result recorded for the feeding match one round earlier. The only
      demand is that this result slot exists. */
  function PlayerIndex(maxPlayers: int, results: seq<int>, round: nat, m: int, position: int): (p: int)
    requires round > 0 ==> 0 <= MatchIndex(maxPlayers, round - 1, FeederMatch(m, position)) < |results|
    ensures round > 0 ==> p in results
    ensures round == 0 && 0 <= m && (position == 0 || position == 1) ==> p / 2 == m && p % 2 == position
  {
    if round == 0 then m * 2 + position
    else results[MatchIndex(maxPlayers, round - 1, FeederMatch(m, position))]
  }

  // ---------------------------------------------------------------------------
  // Powers of two

  lemma {:induction false} Pow2Monotone(a: nat, b: nat)
    requires a <= b
    ensures Pow2(a) <= Pow2(b)
  {
    if a < b {
      Pow2Monotone(a, b - 1);
    }
  }

  /** Shifting 2^n right by k <= n leaves 2^(n-k). */
  lemma {:induction false} ShrPow2(n: nat, k: nat)
    requires k <= n
    ensures Shr(Pow2(n), k) == Pow2(n - k)
  {
    if k > 0 {
      ShrPow2(n, k - 1);
      assert Pow2(n - k + 1) == 2 * Pow2(n - k);
    }
  }

  /** Integer log2 of a power of two (replaces the float `Mathf.Log(maxPlayers, 2)`). */
  predicate IsPowerOfTwo(x: int)
    decreases if x < 0 then 0 else x
  {
    x == 1 || (x > 1 && x % 2 == 0 && IsPowerOfTwo(x / 2))
  }

  function Log2(x: int): (k: nat)
    requires IsPowerOfTwo(x)
    ensures Pow2(k) == x
    decreases x
  {
    if x == 1 then 0 else 1 + Log2(x / 2)
  }

  lemma {:induction false} Pow2IsPowerOfTwo(k: nat)
    ensures IsPowerOfTwo(Pow2(k)) && Log2(Pow2(k)) == k
  {
    if k > 0 {
      Pow2IsPowerOfTwo(k - 1);
      assert Pow2(k) / 2 == Pow2(k - 1);
    }
  }

  // ---------------------------------------------------------------------------
  // Round sizes and offsets

  /** Round r of a bracket of 2^n players has 2^(n-r-1) matches. */
  lemma RoundSize(maxPlayers: int, totalRounds: nat, round: nat)
    requires ValidSize(maxPlayers, totalRounds) && round < totalRounds
    ensures MatchesInRound(maxPlayers, round) == Pow2(totalRounds - round - 1)
    ensures MatchesInRound(maxPlayers, round) >= 1
  {
    ShrPow2(totalRounds, round + 1);
  }

  /** Round halving: every round has exactly half the matches of the round before it. */
  lemma RoundHalving(maxPlayers: int, totalRounds: nat, round: nat)
    requires ValidSize(maxPlayers, totalRounds) && round + 1 < totalRounds
    ensures MatchesInRound(maxPlayers, round) == 2 * MatchesInRound(maxPlayers, round + 1)
  {
    RoundSize(maxPlayers, totalRounds, round);
    RoundSize(maxPlayers, totalRounds, round + 1);
  }

  /** The rounds before `round` hold maxPlayers - 2^(n-round) matches. */
  lemma {:induction false} OffsetClosedForm(maxPlayers: int, totalRounds: nat, round: nat)
    requires ValidSize(maxPlayers, totalRounds) && round <= totalRounds
    ensures MatchOffset(maxPlayers, round) == maxPlayers - Pow2(totalRounds - round)
  {
    if round > 0 {
      OffsetClosedForm(maxPlayers, totalRounds, round - 1);
      RoundSize(maxPlayers, totalRounds, round - 1);
    }
  }

  /** All rounds together hold exactly maxPlayers - 1 matches, the length of the result array;
      the index just past the last match is the one of (totalRounds, 0). */
  lemma TotalMatches(maxPlayers: int, totalRounds: nat)
    requires ValidSize(maxPlayers, totalRounds)
    ensures MatchOffset(maxPlayers, totalRounds) == maxPlayers - 1
    ensures MatchIndex(maxPlayers, totalRounds - 1, 0) == maxPlayers - 2
  {
    OffsetClosedForm(maxPlayers, totalRounds, totalRounds);
    OffsetClosedForm(maxPlayers, totalRounds, totalRounds - 1);
  }

  /** The matches of round r occupy exactly the flat slots [MatchOffset(r), MatchOffset(r+1)). */
  lemma IndexWithinRound(maxPlayers: int, totalRounds: nat, round: nat, m: int)
    requires ValidSize(maxPlayers, totalRounds) && InBracket(maxPlayers, totalRounds, round, m)
    ensures MatchOffset(maxPlayers, round) <= MatchIndex(maxPlayers, round, m) < MatchOffset(maxPlayers, round + 1)
    ensures 0 <= MatchIndex(maxPlayers, round, m) < maxPlayers - 1
  {
    OffsetClosedForm(maxPlayers, totalRounds, round);
    OffsetClosedForm(maxPlayers, totalRounds, round + 1);
    Pow2Monotone(totalRounds - round, totalRounds);
  }

  lemma {:induction false} OffsetMonotone(maxPlayers: int, totalRounds: nat, r1: nat, r2: nat)
    requires ValidSize(maxPlayers, totalRounds) && r1 <= r2 <= totalRounds
    ensures MatchOffset(maxPlayers, r1) <= MatchOffset(maxPlayers, r2)
  {
    OffsetClosedForm(maxPlayers, totalRounds, r1);
    OffsetClosedForm(maxPlayers, totalRounds, r2);
    Pow2Monotone(totalRounds - r2, totalRounds - r1);
  }

  /** The flat index follows play order: an earlier match (by round, then by match) has a
      smaller index. In particular MatchIndex is injective on the bracket. */
  lemma MatchIndexOrdered(maxPlayers: int, totalRounds: nat, r1: nat, m1: int, r2: nat, m2: int)
    requires ValidSize(maxPlayers, totalRounds)
    requires InBracket(maxPlayers, totalRounds, r1, m1) && InBracket(maxPlayers, totalRounds, r2, m2)
    ensures r1 < r2 || (r1 == r2 && m1 < m2) <==> MatchIndex(maxPlayers, r1, m1) < MatchIndex(maxPlayers, r2, m2)
  {
    IndexWithinRound(maxPlayers, totalRounds, r1, m1);
    IndexWithinRound(maxPlayers, totalRounds, r2, m2);
    if r1 < r2 {
      OffsetMonotone(maxPlayers, totalRounds, r1 + 1, r2);
    } else if r2 < r1 {
      OffsetMonotone(maxPlayers, totalRounds, r2 + 1, r1);
    }
  }

  lemma MatchIndexInjective(maxPlayers: int, totalRounds: nat, r1: nat, m1: int, r2: nat, m2: int)
    requires ValidSize(maxPlayers, totalRounds)
    requires InBracket(maxPlayers, totalRounds, r1, m1) && InBracket(maxPlayers, totalRounds, r2, m2)
    requires MatchIndex(maxPlayers, r1, m1) == MatchIndex(maxPlayers, r2, m2)
    ensures r1 == r2 && m1 == m2
  {
    MatchIndexOrdered(maxPlayers, totalRounds, r1, m1, r2, m2);
    MatchIndexOrdered(maxPlayers, totalRounds, r2, m2, r1, m1);
  }

  // ---------------------------------------------------------------------------
  // The inverse: from a flat slot back to (round, match)

  function MatchAtFrom(maxPlayers: int, totalRounds: nat, k: int, round: nat): (pos: (nat, int))
    requires ValidSize(maxPlayers, totalRounds) && round < totalRounds
    requires MatchOffset(maxPlayers, round) <= k < maxPlayers - 1
    decreases totalRounds - round
  {
    if round + 1 == totalRounds || k < MatchOffset(maxPlayers, round + 1) then (round, k - MatchOffset(maxPlayers, round))
    else MatchAtFrom(maxPlayers, totalRounds, k, round + 1)
  }

  /** The match stored at flat slot k. */
  function MatchAt(maxPlayers: int, totalRounds: nat, k: int): (pos: (nat, int))
    requires ValidSize(maxPlayers, totalRounds) && 0 <= k < maxPlayers - 1
  {
    MatchAtFrom(maxPlayers, totalRounds, k, 0)
  }

  lemma {:induction false} MatchAtFromCorrect(maxPlayers: int, totalRounds: nat, k: int, round: nat)
    requires ValidSize(maxPlayers, totalRounds) && round < totalRounds
    requires MatchOffset(maxPlayers, round) <= k < maxPlayers - 1
    ensures var pos := MatchAtFrom(maxPlayers, totalRounds, k, round);
      InBracket(maxPlayers, totalRounds, pos.0, pos.1) && MatchIndex(maxPlayers, pos.0, pos.1) == k
    decreases totalRounds - round
  {
    OffsetClosedForm(maxPlayers, totalRounds, round);
    OffsetClosedForm(maxPlayers, totalRounds, round + 1);
    RoundSize(maxPlayers, totalRounds, round);
    if !(round + 1 == totalRounds || k < MatchOffset(maxPlayers, round + 1)) {
      MatchAtFromCorrect(maxPlayers, totalRounds, k, round + 1);
    }
  }

  /** Bijection, onto: every slot of the result array [0, maxPlayers - 1) is the flat index of
      the match MatchAt names there, so MatchIndex undoes MatchAt. */
  lemma MatchIndexOfMatchAt(maxPlayers: int, totalRounds: nat, k: int)
    requires ValidSize(maxPlayers, totalRounds) && 0 <= k < maxPlayers - 1
    ensures var pos := MatchAt(maxPlayers, totalRounds, k);
      InBracket(maxPlayers, totalRounds, pos.0, pos.1) && MatchIndex(maxPlayers, pos.0, pos.1) == k
  {
    MatchAtFromCorrect(maxPlayers, totalRounds, k, 0);
  }

  /** Bijection, one-to-one: MatchAt undoes MatchIndex on the bracket. */
  lemma MatchAtOfMatchIndex(maxPlayers: int, totalRounds: nat, round: nat, m: int)
    requires ValidSize(maxPlayers, totalRounds) && InBracket(maxPlayers, totalRounds, round, m)
    ensures 0 <= MatchIndex(maxPlayers, round, m) < maxPlayers - 1
    ensures MatchAt(maxPlayers, totalRounds, MatchIndex(maxPlayers, round, m)) == (round, m)
  {
    var k := MatchIndex(maxPlayers, round, m);
    IndexWithinRound(maxPlayers, totalRounds, round, m);
    MatchIndexOfMatchAt(maxPlayers, totalRounds, k);
    var pos := MatchAt(maxPlayers, totalRounds, k);
    MatchIndexInjective(maxPlayers, totalRounds, pos.0, pos.1, round, m);
  }

  // ---------------------------------------------------------------------------
  // The cursor

  /** One step of the cursor moves to the next flat slot; it leaves the bracket, at
      (totalRounds, 0), exactly when the final was the match just decided. */
  lemma AdvanceIsNextSlot(maxPlayers: int, totalRounds: nat, round: nat, m: nat)
    requires ValidSize(maxPlayers, totalRounds) && InBracket(maxPlayers, totalRounds, round, m)
    ensures var next := Advance(maxPlayers, round, m);
      && MatchIndex(maxPlayers, next.0, next.1) == MatchIndex(maxPlayers, round, m) + 1
      && next.0 <= totalRounds
      && (next.0 < totalRounds <==> InBracket(maxPlayers, totalRounds, next.0, next.1))
      && (next.0 == totalRounds <==> MatchIndex(maxPlayers, round, m) == maxPlayers - 2)
      && (next.0 == totalRounds ==> next.1 == 0)
  {
    var next := Advance(maxPlayers, round, m);
    IndexWithinRound(maxPlayers, totalRounds, round, m);
    RoundSize(maxPlayers, totalRounds, round);
    OffsetClosedForm(maxPlayers, totalRounds, round + 1);
    if next.0 < totalRounds {
      RoundSize(maxPlayers, totalRounds, next.0);
    }
    if round + 1 < totalRounds {
      OffsetClosedForm(maxPlayers, totalRounds, round + 2);
      Pow2Monotone(totalRounds - round - 2, totalRounds - round - 1);
    }
  }

  /** The cursor walks the result array in order: after k records it stands on slot k, on the
      match MatchAt(k) while k < maxPlayers - 1, and at (totalRounds, 0) after exactly
      maxPlayers - 1 records. */
  lemma {:induction false} CursorWalksInOrder(maxPlayers: int, totalRounds: nat, k: nat)
    requires ValidSize(maxPlayers, totalRounds) && k <= maxPlayers - 1
    ensures var c := CursorAfter(maxPlayers, k);
      && MatchIndex(maxPlayers, c.0, c.1) == k
      && (k < maxPlayers - 1 ==> InBracket(maxPlayers, totalRounds, c.0, c.1) && c == MatchAt(maxPlayers, totalRounds, k))
      && (k == maxPlayers - 1 ==> c == (totalRounds, 0))
  {
    var c := CursorAfter(maxPlayers, k);
    if k == 0 {
      RoundSize(maxPlayers, totalRounds, 0);
    } else {
      CursorWalksInOrder(maxPlayers, totalRounds, k - 1);
      var p := CursorAfter(maxPlayers, k - 1);
      AdvanceIsNextSlot(maxPlayers, totalRounds, p.0, p.1);
    }
    if k < maxPlayers - 1 {
      MatchAtOfMatchIndex(maxPlayers, totalRounds, c.0, c.1);
    }
  }

  // ---------------------------------------------------------------------------
  // Players of a match

  /** Round 0 pairs the roster in order: the players of match m are 2m and 2m + 1. */
  lemma FirstRoundPairs(maxPlayers: int, totalRounds: nat, results: seq<int>, m: int, position: int)
    requires ValidSize(maxPlayers, totalRounds) && InBracket(maxPlayers, totalRounds, 0, m)
    requires position == 0 || position == 1
    ensures PlayerIndex(maxPlayers, results, 0, m, position) == m * 2 + position
    ensures 0 <= PlayerIndex(maxPlayers, results, 0, m, position) < maxPlayers
  {
    RoundSize(maxPlayers, totalRounds, 0);
  }

  /** The feeding matches of an in-bracket match of a later round are in the bracket, one
      round earlier, and come strictly before it in the flat order. */
  lemma FeedersPrecede(maxPlayers: int, totalRounds: nat, round: nat, m: int, position: int)
    requires ValidSize(maxPlayers, totalRounds) && InBracket(maxPlayers, totalRounds, round, m) && round > 0
    ensures InBracket(maxPlayers, totalRounds, round - 1, FeederMatch(m, position))
    ensures 0 <= MatchIndex(maxPlayers, round - 1, FeederMatch(m, position)) < MatchIndex(maxPlayers, round, m)
  {
    RoundHalving(maxPlayers, totalRounds, round - 1);
    MatchIndexOrdered(maxPlayers, totalRounds, round - 1, FeederMatch(m, position), round, m);
    IndexWithinRound(maxPlayers, totalRounds, round - 1, FeederMatch(m, position));
  }

  /** Winner propagation: the result recorded for match m of round r is the player at
      position m % 2 of match m / 2 of round r + 1. */
  lemma WinnerPropagates(maxPlayers: int, totalRounds: nat, results: seq<int>, round: nat, m: int, winner: int)
    requires ValidSize(maxPlayers, totalRounds) && InBracket(maxPlayers, totalRounds, round, m)
    requires round + 1 < totalRounds
    requires |results| == maxPlayers - 1
    ensures 0 <= MatchIndex(maxPlayers, round, m) < |results|
    ensures var after := results[MatchIndex(maxPlayers, round, m) := winner];
      && InBracket(maxPlayers, totalRounds, round + 1, m / 2)
      && 0 <= MatchIndex(maxPlayers, round, FeederMatch(m / 2, m % 2)) < |after|
      && PlayerIndex(maxPlayers, after, round + 1, m / 2, m % 2) == winner
  {
    IndexWithinRound(maxPlayers, totalRounds, round, m);
    RoundHalving(maxPlayers, totalRounds, round);
    assert FeederMatch(m / 2, m % 2) == m;
  }

  /** The eight-player bracket: rounds of 4, 2 and 1 matches at flat slots 0-3, 4-5 and 6. */
  lemma EightPlayerLayout()
    ensures ValidSize(8, 3)
    ensures MatchesInRound(8, 0) == 4 && MatchesInRound(8, 1) == 2 && MatchesInRound(8, 2) == 1
    ensures MatchIndex(8, 0, 3) == 3 && MatchIndex(8, 1, 1) == 5 && MatchIndex(8, 2, 0) == 6
  {
    assert Shr(8, 1) == 4 && Shr(8, 2) == 2 && Shr(8, 3) == 1;
  }
}
