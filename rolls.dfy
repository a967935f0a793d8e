/** Dice rolls as values: what a valid roll is, how risk.py orders a roll
    (Python's `list.sort()` then `list.reverse()`), how it compares two rolls
    (Python's list ordering), and how one round of `Battle.attack` resolves two
    rolls into troop losses and a result string. */
module Rolls {

  /** A value `randint(1, 6)` can return. */
  predicate IsDie(d: int)
  {
    1 <= d <= 6
  }

  predicate NonDecreasing(s: seq<int>)
  {
    forall i, j :: 0 <= i < j < |s| ==> s[i] <= s[j]
  }

  predicate NonIncreasing(s: seq<int>)
  {
    forall i, j :: 0 <= i < j < |s| ==> s[i] >= s[j]
  }

  /** A stored roll: dice in [1,6], highest first. */
  predicate IsRoll(s: seq<int>)
  {
    (forall i :: 0 <= i < |s| ==> IsDie(s[i])) && NonIncreasing(s)
  }

  function Min(a: int, b: int): int
  {
    if a <= b then a else b
  }

  /** How many dice `Army.roll(number)` throws for an army of `troops`: `number`,
      capped at the troop count, and none when that is not positive (an empty
      `range`). There is no reserve: every troop may throw. */
  function DiceThrown(number: int, troops: int): (n: nat)
    ensures n <= number || n == 0
    ensures n <= troops || n == 0
    ensures number >= 1 && troops >= 1 ==> n >= 1
    ensures n == 0 || n == number || n == troops
  {
    var capped := if number > troops then troops else number;
    if capped > 0 then capped else 0
  }

  /** `x` inserted into an ascending sequence. */
  function Insert(x: int, s: seq<int>): (r: seq<int>)
    requires NonDecreasing(s)
    ensures |r| == |s| + 1
    ensures r[0] == if |s| == 0 then x else Min(x, s[0])
    ensures NonDecreasing(r)
    ensures multiset(r) == multiset(s) + multiset{x}
  {
    if |s| == 0 then [x]
    else if x <= s[0] then [x] + s
    else
      assert s == [s[0]] + s[1..];
      [s[0]] + Insert(x, s[1..])
  }

  /** Python's `list.sort()` on integers: the same dice in ascending order. */
  function Sorted(s: seq<int>): (r: seq<int>)
    ensures NonDecreasing(r)
    ensures multiset(r) == multiset(s)
  {
    if |s| == 0 then []
    else
      assert s == [s[0]] + s[1..];
      Insert(s[0], Sorted(s[1..]))
  }

  /** Python's `list.reverse()`. */
  function Reversed(s: seq<int>): (r: seq<int>)
    ensures |r| == |s|
    ensures forall i :: 0 <= i < |s| ==> r[i] == s[|s| - 1 - i]
  {
    if |s| == 0 then [] else Reversed(s[1..]) + [s[0]]
  }

  /** Reversing keeps the dice and turns ascending into descending order. */
  lemma {:induction false} ReversedAscending(s: seq<int>)
    requires NonDecreasing(s)
    ensures NonIncreasing(Reversed(s))
    ensures multiset(Reversed(s)) == multiset(s)
  {
    if |s| > 0 {
      ReversedAscending(s[1..]);
      assert s == [s[0]] + s[1..];
    }
  }

  /** Sequences with the same dice agree on every die being in [1,6]. */
  lemma SameDice(a: seq<int>, b: seq<int>)
    requires multiset(a) == multiset(b)
    requires forall i :: 0 <= i < |b| ==> IsDie(b[i])
    ensures forall i :: 0 <= i < |a| ==> IsDie(a[i])
  {
    forall i | 0 <= i < |a| ensures IsDie(a[i]) {
      assert a[i] in multiset(a);
      assert a[i] in multiset(b);
      var j :| 0 <= j < |b| && b[j] == a[i];
    }
  }

  /** What `roll` stores: the thrown dice sorted, then reversed. It is a roll with
      exactly the dice thrown. */
  lemma Ordered(thrown: seq<int>)
    requires forall i :: 0 <= i < |thrown| ==> IsDie(thrown[i])
    ensures IsRoll(Reversed(Sorted(thrown)))
    ensures multiset(Reversed(Sorted(thrown))) == multiset(thrown)
  {
    ReversedAscending(Sorted(thrown));
    SameDice(Reversed(Sorted(thrown)), thrown);
  }

  /** Python's `a < b` on lists of integers: the first differing element decides,
      and a proper prefix comes first. */
  function LexLess(a: seq<int>, b: seq<int>): (r: bool)
    ensures r ==> a != b
    ensures |a| < |b| && a == b[..|a|] ==> r
  {
    if |a| == 0 then |b| > 0
    else if |b| == 0 then false
    else if a[0] != b[0] then a[0] < b[0]
    else LexLess(a[1..], b[1..])
  }

  /** Python's `a <= b` on lists: less or equal, which is exactly "not greater". */
  function LexLessEq(a: seq<int>, b: seq<int>): (r: bool)
    ensures r <==> !LexLess(b, a)
  {
    LexTotal(a, b);
    LexAsymmetric(a, b);
    LexIrreflexive(a);
    LexLess(a, b) || a == b
  }

  lemma {:induction false} LexIrreflexive(a: seq<int>)
    ensures !LexLess(a, a)
  {
    if |a| > 0 {
      LexIrreflexive(a[1..]);
    }
  }

  lemma {:induction false} LexTransitive(a: seq<int>, b: seq<int>, c: seq<int>)
    requires LexLess(a, b) && LexLess(b, c)
    ensures LexLess(a, c)
  {
    if |a| > 0 && |b| > 0 && |c| > 0 && a[0] == b[0] == c[0] {
      LexTransitive(a[1..], b[1..], c[1..]);
    }
  }

  /** No two lists are each less than the other. */
  lemma LexAsymmetric(a: seq<int>, b: seq<int>)
    ensures !(LexLess(a, b) && LexLess(b, a))
  {
    if LexLess(a, b) && LexLess(b, a) {
      LexTransitive(a, b, a);
      LexIrreflexive(a);
    }
  }

  /** Any two different lists are ordered one way or the other. */
  lemma {:induction false} LexTotal(a: seq<int>, b: seq<int>)
    ensures a == b || LexLess(a, b) || LexLess(b, a)
  {
    if |a| > 0 && |b| > 0 && a[0] == b[0] {
      LexTotal(a[1..], b[1..]);
      if a[1..] == b[1..] {
        assert a == [a[0]] + a[1..] && b == [b[0]] + b[1..];
      }
    }
  }

  /** How `Army.__ge__` and `__gt__` relate to `__lt__` and `__le__`: `a >= b` holds
      exactly when `a < b` does not, and `a > b` exactly when `a <= b` does not. A
      corollary of `LexLessEq`'s contract. */
  lemma LexComplement(a: seq<int>, b: seq<int>)
    ensures LexLessEq(b, a) <==> !LexLess(a, b)
    ensures LexLess(b, a) <==> !LexLessEq(a, b)
  {
  }

  /** The outcome of one call of `Battle.attack` for the two rolls it compared. */
  datatype Round = Round(offenseLosses: nat, defenseLosses: nat, result: string)

  /** How many die pairs `attack` compares: the highest pair, and the second-highest
      when both sides threw at least two dice. */
  function PairsCompared(offense: seq<int>, defense: seq<int>): nat
  {
    if |offense| > 1 && |defense| > 1 then 2 else 1
  }

  /** The offense wins a pair only with a strictly higher die: ties go to the defense. */
  predicate OffenseWinsPair(offense: seq<int>, defense: seq<int>, i: nat)
    requires i < |offense| && i < |defense|
  {
    offense[i] > defense[i]
  }

  /** The body of `Battle.attack` after the rolls: the highest dice are compared, then
      the second-highest if both threw two or more; each pair costs its loser one
      troop and adds "Won "/"Lost " (first pair) or "and Won"/"and Lost" (second pair)
      to the result. */
  function Resolve(offense: seq<int>, defense: seq<int>): (r: Round)
    requires |offense| >= 1 && |defense| >= 1
    ensures r.offenseLosses + r.defenseLosses == PairsCompared(offense, defense)
    ensures r.defenseLosses >= 1 <==> exists i :: 0 <= i < PairsCompared(offense, defense) && offense[i] > defense[i]
    ensures r.offenseLosses >= 1 <==> exists i :: 0 <= i < PairsCompared(offense, defense) && offense[i] <= defense[i]
  {
    var first :=
      if OffenseWinsPair(offense, defense, 0) then Round(0, 1, "Won ") else Round(1, 0, "Lost ");
    if |offense| > 1 && |defense| > 1 then
      if OffenseWinsPair(offense, defense, 1) then
        Round(first.offenseLosses, first.defenseLosses + 1, first.result + "and Won")
      else
        Round(first.offenseLosses + 1, first.defenseLosses, first.result + "and Lost")
    else first
  }

  /** Among the first `n` pairs, those the offense wins: an independent count. */
  function OffenseWins(offense: seq<int>, defense: seq<int>, n: nat): (w: nat)
    requires n <= |offense| && n <= |defense|
    ensures w <= n
  {
    if n == 0 then 0
    else OffenseWins(offense, defense, n - 1) + (if offense[n - 1] > defense[n - 1] then 1 else 0)
  }

  /** Each compared pair takes exactly one troop from exactly one side: the defense
      loses one troop per pair the offense wins with a strictly higher die, the
      offense one per other pair (ties included). */
  lemma ResolveCounts(offense: seq<int>, defense: seq<int>)
    requires |offense| >= 1 && |defense| >= 1
    ensures var n := PairsCompared(offense, defense);
      var round := Resolve(offense, defense);
      round.defenseLosses == OffenseWins(offense, defense, n) &&
      round.offenseLosses == n - OffenseWins(offense, defense, n) &&
      round.offenseLosses + round.defenseLosses == n
  {
  }

  /** The result string names the first pair's winner, then the second pair's when
      two pairs were compared. */
  lemma ResolveResult(offense: seq<int>, defense: seq<int>)
    requires |offense| >= 1 && |defense| >= 1
    ensures var r := Resolve(offense, defense).result;
      var first := if offense[0] > defense[0] then "Won " else "Lost ";
      |r| >= 4 &&
      r[..|first|] == first &&
      (PairsCompared(offense, defense) == 1 <==> r == first) &&
      (PairsCompared(offense, defense) == 2 ==>
        r[|first|..] == if offense[1] > defense[1] then "and Won" else "and Lost")
  {
  }

  /** For rolls of the sizes `attack` throws (at most three against at most two),
      the pairs compared are as many as the smaller roll has dice. */
  lemma PairsCompareSmallerRoll(offense: seq<int>, defense: seq<int>)
    requires 1 <= |offense| <= 3 && 1 <= |defense| <= 2
    ensures PairsCompared(offense, defense) == Min(|offense|, |defense|)
  {
  }

  /** One round of an attack that `Battle.action()` allows (offense at least 2 troops,
      defense at least 1), with rolls of the sizes `roll` throws: one or two troops are
      lost in all, neither side loses more than it has, and the offense ends at zero
      only if it started with two troops facing a defense of two or more. */
  lemma {:induction false} RoundBounds(offenseTroops: int, defenseTroops: int, offense: seq<int>, defense: seq<int>)
    requires offenseTroops >= 2 && defenseTroops >= 1
    requires |offense| == DiceThrown(3, offenseTroops) && |defense| == DiceThrown(2, defenseTroops)
    ensures var round := Resolve(offense, defense);
      1 <= round.offenseLosses + round.defenseLosses <= 2 &&
      round.offenseLosses <= offenseTroops && round.defenseLosses <= defenseTroops &&
      (offenseTroops - round.offenseLosses == 0 ==> offenseTroops == 2 && defenseTroops >= 2)
  {
    ResolveCounts(offense, defense);
  }

  /** Without a reserve an attack can wipe out the offense: two troops throw two dice,
      and a defense of two or more that matches or beats both takes both troops. */
  lemma OffenseWipedOut(offense: seq<int>, defense: seq<int>)
    requires |offense| == DiceThrown(3, 2) && |defense| == DiceThrown(2, 2)
    requires offense[0] <= defense[0] && offense[1] <= defense[1]
    ensures 2 - Resolve(offense, defense).offenseLosses == 0
  {
  }

  /** The round worked through for `attack`: offense [6,5,4] against defense [6,3]. The
      sixes tie, so the offense loses a troop; 5 beats 3, so the defense loses one. */
  lemma TieThenWin()
    ensures Resolve([6, 5, 4], [6, 3]) == Round(1, 1, "Lost and Won")
  {
  }
}
