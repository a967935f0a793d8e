# RiskBattler combat engine and dice renderer in Dafny

This project models the two logic components of RiskBattler, a terminal tool
that plays out the dice battles of the board game Risk.

- **risk.py, the combat engine.** An `Army` keeps three things: its starting
  troop count, its current troop count and its most recent roll. It can lose
  troops, roll dice, report its losses, and say whether it can still attack or
  defend. A `Battle` holds an offense and a defense. Each `attack` plays one
  round: the offense throws up to three dice and the defense up to two. The
  highest dice are compared, then the second-highest when both sides threw at
  least two. A pair goes to the offense only with a strictly higher die, so
  ties go to the defense. Each pair costs its loser one troop. The round also
  builds a "Won"/"Lost" result string. `main` repeats `attack` while `action()`
  holds.
- **dice.py, the ASCII die renderer.** `side` looks up the 3x5 pip pattern of
  a face. `str` draws a face as a five-line box with `·` for each pip. `join`
  sets several drawings side by side, line by line.

Files:

- `lines.dfy` (module `Lines`): the Python string operations the renderer
  uses, over `seq<char>`. These are `split("\n")`, `"\n".join`, one-character
  `replace` and counting. It also proves the round trips between split and join.
- `dice.dfy` (module `Dice`): `side`, `str` and `join`, with their shape
  properties.
- `rolls.dfy` (module `Rolls`): rolls as values. This covers dice counts,
  sort-then-reverse, Python's list ordering, and the resolution of one round
  (`Resolve`) with its properties.
- `risk.dfy` (module `Risk`): the classes `Army` and `Battle`, which update
  their fields in place. It also has the automatic battle loop of `main` and
  the finding about the asserts in `attack`.

How the model maps the source:

- **Randomness.** `randint(1, 6)` becomes a nondeterministic choice of some
  value in [1,6] (`var die :| IsDie(die)`).
- **Sorting.** `sort()` then `reverse()` become the functions `Sorted` and
  `Reversed`, which are proved to keep the dice and to give descending order.
- **Errors.** Python's IndexError in `side`, `str` and `join` becomes `None` of
  an `Option`.
- **Integers.** They are unbounded, as in Python.

`roll` at risk.py:87-103 caps the dice at the current troop count and keeps no
reserve, so an attacker with two troops throws two dice and can drop to zero
(`Rolls.OffenseWipedOut`).

## Model

| member | source | states |
|---|---|---|
| `Risk.Army.constructor` | risk.py:39-46 | A new army's start and current count both equal the given count. Its roll is empty, `lost()` is 0, and it can attack iff the count is over 1 and defend iff it is over 0. |
| `Risk.Army.Lose` | risk.py:78-85 | The current count drops by exactly `k`, with no floor. The start and the last roll stay the same, so `lost()` rises by exactly `k`. The army itself is returned. |
| `Risk.Army.Roll` | risk.py:87-103 | Exactly `DiceThrown(number, troops)` dice are thrown, i.e. `min(number, troops)` and none if that is not positive. The new roll replaces the old one, and the stored roll is what is returned. Every die is in [1,6], the roll is non-increasing, and the troop count is unchanged. |
| `Risk.Battle.constructor` | risk.py:119-121 | The battle holds the given offense and defense and starts valid: two different armies, each with a valid roll. |
| `Risk.Battle.Attack` | risk.py:133-160 | The offense throws `min(3, troops)` dice and the defense `min(2, troops)`, both at least one. Each side's troops fall by its losses under `Resolve`, and the result string is `Resolve`'s. The battle stays valid. When `action()` held beforehand, both counts stay at 0 or above, and their total falls by 1 or 2. |
| `Risk.AutoBattle` | risk.py:217-227 | The loop attacks while `action()` holds, keeps the battle valid and terminates, measured by the total troops. Afterwards `action()` is false. At least one round is played iff `action()` held at the start, and with no round both counts are unchanged. Neither side's count ever rises. No side is below 0 once a round was played. The troops lost number between one and two per round. |
| `Risk.AssertsLetEmptyRollsThrough` | risk.py:142-143 | An offense of 0 troops throws no dice and a defense of 1 throws one. The asserts as written pass for that empty roll against any die, while the intended check fails. |
| `Risk.IntendedAssertsHold` | risk.py:138-143 | With the roll sizes `roll` gives, both rolls are non-empty iff both armies have at least one troop. |
| `Rolls.DiceThrown` | risk.py:94-97 | The dice thrown never exceed the requested number or the troop count (unless none). There is at least one die when both are positive, and the count is zero, the request or the troop count. |
| `Rolls.Insert` | risk.py:100 | Inserting into an ascending list keeps it ascending, adds exactly that element, and puts the smaller of it and the old head first. |
| `Rolls.Sorted` | risk.py:100 | `list.sort()` returns the same multiset of dice in ascending order. |
| `Rolls.Reversed` | risk.py:101 | `list.reverse()` puts element `i` at position `len - 1 - i`. |
| `Rolls.ReversedAscending` | risk.py:100-101 | Reversing an ascending list keeps its dice and makes it descending. |
| `Rolls.Ordered` | risk.py:97-101 | Sorting then reversing the thrown dice gives a valid roll (dice in [1,6], non-increasing) holding exactly the dice thrown. |
| `Rolls.LexLess` | risk.py:62-64 | Python's list `<`: a list is never less than itself, and a proper prefix is less than the longer list. |
| `Rolls.LexLessEq` | risk.py:66-68 | Python's list `<=` holds exactly when the other list is not less. |
| `Rolls.LexIrreflexive` | risk.py:62-64 | `__lt__`: no roll is less than itself. |
| `Rolls.LexTransitive` | risk.py:62-64 | `__lt__` on rolls is transitive. |
| `Rolls.LexTotal` | risk.py:62-76 | Any two different rolls are ordered one way or the other. |
| `Rolls.LexComplement` | risk.py:62-76 | `a >= b` holds iff `a < b` does not, and `a > b` holds iff `a <= b` does not. |
| `Rolls.Resolve` | risk.py:145-158 | One round costs exactly as many troops as pairs are compared. The defense loses a troop iff some compared pair has the offense's die strictly higher. The offense loses one iff some compared pair has its die lower or equal. |
| `Rolls.ResolveCounts` | risk.py:145-158 | Each compared pair takes exactly one troop from exactly one side. The defense loses one per pair the offense wins with a strictly higher die. The offense loses one per other pair, ties included. |
| `Rolls.ResolveResult` | risk.py:140-158 | The result starts with "Won " or "Lost " for the first pair. It is only that when one pair was compared. Otherwise "and Won" or "and Lost" follows for the second pair. |
| `Rolls.PairsCompareSmallerRoll` | risk.py:138-152 | For rolls of at most 3 and at most 2 dice, the number of pairs compared is the smaller roll's length. |
| `Rolls.RoundBounds` | risk.py:129-158 | In a round that `action()` allows, 1 or 2 troops are lost in all. Neither side loses more than it has. The offense reaches 0 only if it started with 2 against a defense of 2 or more. |
| `Rolls.OffenseWipedOut` | risk.py:94-95 | With no reserve, an offense of 2 throws 2 dice. It loses both troops when the defense (2 or more) matches or beats both dice. |
| `Rolls.TieThenWin` | risk.py:145-158 | Offense [6,5,4] against defense [6,3] costs each side one troop, and the result is "Lost and Won". |
| `Dice.Side` | dice.py:48-56 | A face exists iff the number is in -5..6; other numbers raise IndexError (`None`). Every face has 3 rows of 5 characters. |
| `Dice.SidePattern` | dice.py:50-55 | Every row of every face holds only spaces and `x`. |
| `Dice.SideDots` | dice.py:50-56 | For 1 to 6, the face shows exactly `number` pips. |
| `Dice.SideWraps` | dice.py:56 | Numbers -5 to 0 index from the end of the table, so `side(0)` is the six. |
| `Dice.Center` | dice.py:38-39 | Centring pads to the width, and a string at least as wide as the width is left unchanged. |
| `Dice.Framed` | dice.py:38-43 | `line.format(row)` starts with `" | "` and ends with `" |"`, and is 10 characters wide for a row of at most 5. |
| `Dice.Render` | dice.py:36-46 | The text `str(number)` returns has no `x` left in it. |
| `Dice.Str` | dice.py:36-46 | `str(number)` gives text iff the number is in -5..6 and raises IndexError (`None`) otherwise, through `side`. The loop builds the border, boxed rows and border, joins them with newlines and turns pips into dots. The text equals `Render(number)`. |
| `Dice.RenderLines` | dice.py:38-44 | `str(number)` has exactly 5 lines. The first and last are the border, line `i+1` is `" | " + row_i + " |"` with dots for pips, and every line is 10 characters wide. |
| `Dice.RenderDots` | dice.py:41-46 | `str(number)` contains no `x`, and for 1 to 6 it contains exactly `number` dots. |
| `Dice.JoinedLine` | dice.py:31-33 | Line `i` of the joined text is empty when no face has a line `i`. Otherwise it starts with the first face's line `i` followed by `sep`. |
| `Dice.Joined` | dice.py:26-34 | `join` fails (`None`, IndexError) iff there is no face, or some face has more lines than the first. |
| `Dice.Join` | dice.py:26-34 | `join(*faces, sep)` returns the joined text. It returns `None` (IndexError) when there is no face or a face has more lines than the first. |
| `Dice.Accumulate` | dice.py:30-34 | The nested loops build line `i` as each face's line `i` plus `sep`, in face order. Running past the first face's lines gives `None`. |
| `Dice.JoinedLines` | dice.py:30-34 | With a newline-free `sep`, the joined text has exactly as many lines as the first face. Line `i` is the faces' lines `i`, each followed by `sep`, in order. |
| `Dice.JoinedSingle` | dice.py:26-34 | Joining one face with `sep=""` gives that face back unchanged. |
| `Dice.JoinedRenders` | dice.py:26-46 | Joining two `str` faces gives 5 lines. Each line is the two faces' lines side by side and is 20 characters wide. |
| `Lines.JoinLines` | dice.py:34 | `"\n".join(lines)` is empty for no lines, and otherwise starts with the first line. |
| `Lines.SplitLines` | dice.py:29 | `split("\n")` gives one more piece than there are newlines, and no piece holds a newline. |
| `Lines.JoinSplit` | dice.py:29-34 | Joining the pieces of a split with newlines gives back the original string. |
| `Lines.SplitJoin` | dice.py:34 | Splitting a newline-join of newline-free lines gives back those lines. |
| `Lines.Replace` | dice.py:46 | `replace("x", DICE_DOTS)` turns every `x` into the dot and leaves every other character alone. |
| `Lines.ReplaceCounts` | dice.py:46 | After the replacement no `x` is left, and the number of dots is the number of `x`s plus the dots there before. |

## Left out

- `get_int` and `main` (risk.py:162-252): curses screen output, key polling, `napms` delays and input re-prompting. Only the battle loop of automatic mode (risk.py:217-227) is modelled, as `Risk.AutoBattle`. The manual mode, where each round waits for a key and any key but space stops the battle, is not modelled.
- The probability distribution of `randint`: a die is only some value in [1,6]. The model makes no claim about uniformity.
- `__repr__` and `__str__` of `Army` and `Battle` (risk.py:48-52, 123-127): display text only.
- `Army`'s comparisons (risk.py:54-76) are predicates without contracts of their own (`Eq`, `Ne`, `Lt`, `Le`, `Gt`, `Ge`). Their ordering properties are proved about `LexLess` in `Rolls`. The same goes for `lost`, `can_attack`, `can_defend` and `action`, which are stated through the contracts of the constructor, `Lose`, `Attack` and `AutoBattle`.
- Risk.Battle.Attack: requires both armies to have a troop. Without one, a roll is empty and Python raises IndexError at `o_roll[0]`. That error path is not modelled: `action()`, which the caller checks before every round, implies the requirement.
- Risk.Battle.Attack: requires the battle to be valid, with the offense and the defense different objects. A battle of an army against itself is not modelled.
- `roll` returns its stored list object itself. The model returns the value, so later changes to that list through the caller are not modelled. The source never makes any, because every roll builds a fresh list.
- `join` copies its arguments into a local list (`faces = list(faces)`, dice.py:27) and then overwrites that copy with the split faces. No caller can see the copy, so the model's separate sequence of split faces loses no visible behaviour.
- dice.py:58-59: the `__main__` block calls `sys` and `main`, which are not defined there, so it cannot run. The choice of dot character mentioned in dice.py's docstring exists only there. `DICE_DOTS` is the constant `chr(183)`.

## Findings

| source | as written | input that shows it | evidently intended | confidence | as-written member | corrected member |
|---|---|---|---|---|---|---|
| risk.py:142-143 | `assert "No die for offense", len(o_roll) == 0` asserts the message string, which is always true, and uses the comparison only as the message | `Battle(Army(0), Army(1)).attack()`: the offense throws no dice, the asserts pass, and `o_roll[0]` raises IndexError | assert that both rolls are non-empty (`assert len(o_roll) > 0, "No die for offense"`) | high (not executed) | `Risk.AssertsLetEmptyRollsThrough` | `Risk.IntendedAssertsHold` |
