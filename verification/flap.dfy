/**
 * One flap unit's transition (`flipToChar`) as the trace of flips it
 * performs. A flip shows a new symbol after a start delay; the trace's
 * last symbol is what the unit displays when the transition ends.
 *
 * Step mode walks the drum `a` one symbol per flip inside two loops, each
 * bounded by a guard of 140 iterations. The random draws that decide
 * overshoot are an input (`Roll`); flip durations and their jitter are
 * not modelled.
 */
module Flap {
  import opened Alphabet
  import Text

  /** `cfg.charMode`: flip straight to the target, or step through the drum. */
  datatype CharMode = Step | Direct

  /** One flip of a unit: the symbol it turns to and the delay before it
      starts, in milliseconds. */
  datatype Flip = Flip(symbol: char, delay: nat)

  /** The two random draws of step mode: whether the unit overshoots
      (`Math.random() < overshootChance`) and whether it overshoots by two
      symbols rather than one (`Math.floor(Math.random() * 2) == 1`). */
  datatype Roll = Roll(hit: bool, second: bool)

  /** `overshootSteps`: 1 or 2 extra symbols when overshoot is enabled and
      the draw hits, otherwise 0. */
  function OvershootSteps(enabled: bool, roll: Roll): (o: nat)
    ensures o <= 2
    ensures o > 0 <==> enabled && roll.hit
  {
    if enabled && roll.hit then 1 + (if roll.second then 1 else 0) else 0
  }

  /** Iteration bound of each step-mode loop. */
  const GUARD: nat := 140

  /** The symbol shown after a trace that starts from `c`. */
  function Final(c: char, trace: seq<Flip>): char {
    if |trace| == 0 then c else trace[|trace| - 1].symbol
  }

  /** The overshoot loop: `o` steps past `cur`, the first one after
      `delay`. */
  function OvershootFlips(a: string, cur: char, o: nat, delay: nat): seq<Flip>
    requires |a| == SIZE
    decreases o
  {
    if o == 0 then []
    else [Flip(StepChar(a, cur), delay)] + OvershootFlips(a, StepChar(a, cur), o - 1, 0)
  }

  /** The first loop of step mode, entered with `guard` iterations used.
      Away from the target the unit takes one step. On reaching the target
      it stops, unless this is the first time and `o > 0`: then it
      overshoots by `o` symbols, takes one more step and carries on. */
  function StepLoop(a: string, cur: char, target: char, o: nat, reached: bool, guard: nat, delay: nat): seq<Flip>
    requires |a| == SIZE
    decreases GUARD - guard, 1
  {
    if guard >= GUARD then []
    else if cur != target then
      [Flip(StepChar(a, cur), delay)] + StepLoop(a, StepChar(a, cur), target, o, reached, guard + 1, 0)
    else if reached || o == 0 then []
    else Overshoot(a, cur, o, guard, delay)
  }

  /** The overshoot branch of the first loop, at the target `cur` with
      `guard < GUARD`: `o` flips past it, one more step, and the loop
      carries on with the target reached. */
  function Overshoot(a: string, cur: char, o: nat, guard: nat, delay: nat): seq<Flip>
    requires |a| == SIZE && guard < GUARD
    decreases GUARD - guard, 0
  {
    var pre := OvershootFlips(a, cur, o, delay);
    var here := Final(cur, pre);
    pre + [Flip(StepChar(a, here), 0)] + StepLoop(a, StepChar(a, here), cur, o, true, guard + 1, 0)
  }

  /** The second loop of step mode: keep stepping, without delay, while the
      target is not shown and the guard allows. */
  function ReturnLoop(a: string, cur: char, target: char, guard: nat): seq<Flip>
    requires |a| == SIZE
    decreases GUARD - guard
  {
    if cur == target || guard >= GUARD then []
    else [Flip(StepChar(a, cur), 0)] + ReturnLoop(a, StepChar(a, cur), target, guard + 1)
  }

  /** `flipToChar`: the flips a unit showing `cur` performs to show
      `target`, the first one after `delay`. */
  function FlipToChar(a: string, cur: char, target: char, delay: nat, mode: CharMode, overshoot: bool, roll: Roll): (r: seq<Flip>)
    requires |a| == SIZE
    ensures cur == target ==> r == []
    ensures cur != target && mode == Direct ==> r == [Flip(target, delay)]
  {
    if cur == target then []
    else if mode == Direct then [Flip(target, delay)]
    else
      var first := StepLoop(a, cur, target, OvershootSteps(overshoot, roll), false, 0, delay);
      first + ReturnLoop(a, Final(cur, first), target, 0)
  }

  // ----- Reference definitions -----

  /** `n` flips showing the drum symbols from position `p` on, in drum
      order; only the first waits `delay`. */
  function Turn(a: string, p: int, n: nat, delay: nat): (r: seq<Flip>)
    requires |a| == SIZE
    ensures |r| == n
    decreases n
  {
    if n == 0 then [] else [Flip(Sym(a, p), delay)] + Turn(a, p + 1, n - 1, 0)
  }

  /** Steps from drum position `p` forward to the drum symbol `t`: between
      1 and a full turn. */
  function Gap(a: string, p: int, t: char): nat {
    1 + (Idx(a, t) - p - 1) % SIZE
  }

  /** Steps from the character `c` to the drum symbol `t`: none when `c`
      is `t`, otherwise the way forward from the position `c` counts as. */
  function Dist(a: string, c: char, t: char): nat {
    if c == t then 0 else Gap(a, Idx(a, c), t)
  }

  /** Flips step mode performs from `c` to `t != c`: the distance, plus a
      full turn when overshooting; towards a character that is not on the
      drum both loops run out their guard. */
  function StepFlips(a: string, c: char, t: char, o: nat): nat {
    if OnDrum(a, t) then Dist(a, c, t) + (if o > 0 then SIZE else 0) else 2 * GUARD
  }

  /** Each flip of the trace turns to the successor of the symbol shown
      before it. */
  ghost predicate SuccessorChain(a: string, c: char, trace: seq<Flip>)
    requires |a| == SIZE
  {
    && (|trace| > 0 ==> trace[0].symbol == StepChar(a, c))
    && (forall k :: 0 < k < |trace| ==> trace[k].symbol == StepChar(a, trace[k - 1].symbol))
  }

  /** Only the first flip waits, and it waits `delay`. */
  ghost predicate OnlyFirstDelayed(trace: seq<Flip>, delay: nat) {
    && (|trace| > 0 ==> trace[0].delay == delay)
    && (forall k :: 0 < k < |trace| ==> trace[k].delay == 0)
  }

  // ----- Traces -----

  /** The symbol after a trace with a first flip is the symbol after the
      rest of it, started from that flip's symbol. */
  lemma FinalCons(c: char, f: Flip, rest: seq<Flip>)
    ensures Final(c, [f] + rest) == Final(f.symbol, rest)
  {
    if |rest| > 0 {
      assert ([f] + rest)[|rest|] == rest[|rest| - 1];
    }
  }

  /** The symbol after two traces in turn. */
  lemma FinalAppend(c: char, x: seq<Flip>, y: seq<Flip>)
    ensures Final(c, x + y) == Final(Final(c, x), y)
  {
    if |y| > 0 {
      assert (x + y)[|x + y| - 1] == y[|y| - 1];
    } else {
      assert x + y == x;
    }
  }

  /** Flip `k` of a turn shows the symbol `k` positions on. */
  lemma {:induction false} TurnAt(a: string, p: int, n: nat, delay: nat, k: nat)
    requires |a| == SIZE && k < n
    ensures Turn(a, p, n, delay)[k] == Flip(Sym(a, p + k), if k == 0 then delay else 0)
    decreases n
  {
    if k > 0 {
      TurnAt(a, p + 1, n - 1, 0, k - 1);
    }
  }

  /** A turn is its first flip followed by the rest. */
  lemma TurnCons(a: string, p: int, n: nat, delay: nat)
    requires |a| == SIZE && n > 0
    ensures Turn(a, p, n, delay) == [Flip(Sym(a, p), delay)] + Turn(a, p + 1, n - 1, 0)
  {
  }

  lemma TurnConsOf(a: string, p: int, n: nat, delay: nat, trace: seq<Flip>, rest: seq<Flip>)
    requires |a| == SIZE && n > 0
    requires rest == Turn(a, p + 1, n - 1, 0)
    requires trace == [Flip(Sym(a, p), delay)] + rest
    ensures trace == Turn(a, p, n, delay)
  {
    TurnCons(a, p, n, delay);
  }

  /** A full turn returns to the same symbol. */
  lemma SymRound(a: string, k: int)
    requires |a| == SIZE
    ensures Sym(a, k + SIZE) == Sym(a, k)
  {
    assert (k + SIZE) % SIZE == k % SIZE;
  }

  /** A turn of `n > 0` flips ends `n - 1` positions after it starts. */
  lemma TurnFinal(a: string, c: char, p: int, n: nat, delay: nat)
    requires |a| == SIZE && n > 0
    ensures Final(c, Turn(a, p, n, delay)) == Sym(a, p + n - 1)
  {
    TurnAt(a, p, n, delay, n - 1);
  }

  /** Two turns, the second starting where the first stops, make one. */
  lemma {:induction false} TurnAppend(a: string, p: int, m: nat, n: nat, delay: nat)
    requires |a| == SIZE
    ensures Turn(a, p, m, delay) + Turn(a, p + m, n, if m == 0 then delay else 0) == Turn(a, p, m + n, delay)
    decreases m
  {
    if m > 0 {
      TurnAppend(a, p + 1, m - 1, n, 0);
      assert [Flip(Sym(a, p), delay)] + Turn(a, p + 1, m - 1, 0) + Turn(a, p + m, n, 0)
        == [Flip(Sym(a, p), delay)] + (Turn(a, p + 1, m - 1, 0) + Turn(a, p + m, n, 0));
    }
  }

  /** `TurnAppend` with the second turn's start and the total length
      given. */
  lemma TurnAppendAt(a: string, p: int, m: nat, q: int, n: nat, total: nat, delay: nat)
    requires |a| == SIZE && m > 0 && q == p + m && total == m + n
    ensures Turn(a, p, m, delay) + Turn(a, q, n, 0) == Turn(a, p, total, delay)
  {
    TurnAppend(a, p, m, n, delay);
  }

  /** Positions are only meaningful round the drum. */
  lemma {:induction false} TurnShift(a: string, p: int, q: int, n: nat, delay: nat)
    requires |a| == SIZE && p % SIZE == q % SIZE
    ensures Turn(a, p, n, delay) == Turn(a, q, n, delay)
    decreases n
  {
    if n > 0 {
      assert (p + 1) % SIZE == (q + 1) % SIZE;
      TurnShift(a, p + 1, q + 1, n - 1, 0);
    }
  }

  /** A turn that starts one position after `c` is the chain of successors
      of `c`, and only its first flip waits. */
  lemma TurnIsSuccessorChain(a: string, c: char, n: nat, delay: nat)
    requires IsDrum(a)
    ensures SuccessorChain(a, c, Turn(a, Idx(a, c) + 1, n, delay))
    ensures OnlyFirstDelayed(Turn(a, Idx(a, c) + 1, n, delay), delay)
  {
    var p := Idx(a, c) + 1;
    var r := Turn(a, p, n, delay);
    if n > 0 {
      TurnAt(a, p, n, delay, 0);
    }
    forall k | 0 < k < n
      ensures r[k].symbol == StepChar(a, r[k - 1].symbol)
      ensures r[k].delay == 0
    {
      TurnAt(a, p, n, delay, k);
      TurnAt(a, p, n, delay, k - 1);
      StepCharSym(a, p + (k - 1));
    }
  }

  /** The overshoot loop from a drum symbol is a turn. */
  lemma {:induction false} OvershootIsTurn(a: string, p: int, o: nat, delay: nat)
    requires IsDrum(a)
    ensures OvershootFlips(a, Sym(a, p), o, delay) == Turn(a, p + 1, o, delay)
    decreases o
  {
    if o > 0 {
      StepCharSym(a, p);
      OvershootIsTurn(a, p + 1, o - 1, 0);
    }
  }

  // ----- Distance arithmetic -----

  lemma GapArith(p: int, i: int)
    requires 0 <= i < SIZE && p % SIZE != i
    ensures 1 + (i - p - 1) % SIZE < SIZE
    ensures (p + 1 + (i - p - 1) % SIZE) % SIZE == i
    ensures (i - p - 1) % SIZE == 0 <==> (p + 1) % SIZE == i
    ensures (i - p - 1) % SIZE > 0 ==> (i - p - 2) % SIZE == (i - p - 1) % SIZE - 1
  {
  }

  /** From a position that does not show `t`, the gap is short of a full
      turn, ends on `t`, and one step shortens it by one. */
  lemma GapStep(a: string, p: int, t: char)
    requires IsDrum(a) && OnDrum(a, t) && Sym(a, p) != t
    ensures 1 <= Gap(a, p, t) < SIZE
    ensures Sym(a, p + Gap(a, p, t)) == t
    ensures Gap(a, p, t) == 1 <==> Sym(a, p + 1) == t
    ensures Gap(a, p, t) > 1 ==> Gap(a, p + 1, t) == Gap(a, p, t) - 1
  {
    var i := Idx(a, t);
    SymHits(a, p, t);
    SymHits(a, p + 1, t);
    SymHits(a, p + Gap(a, p, t), t);
    GapArith(p, i);
  }

  lemma ModArith(x: int, y: int, m: int)
    requires 0 <= x < SIZE && 0 <= y < SIZE
    ensures (x + m) % SIZE == y <==> (m - (1 + (y - x - 1) % SIZE)) % SIZE == 0
  {
    var d := 1 + (y - x - 1) % SIZE;
    assert (d - (y - x)) % SIZE == 0;
  }

  /** The `m`-th successor of `c` is the drum symbol `t` exactly when `m`
      is congruent to the distance from `c` to `t`. */
  lemma HitsAt(a: string, c: char, t: char, m: int)
    requires IsDrum(a) && OnDrum(a, t) && c != t
    ensures Sym(a, Idx(a, c) + m) == t <==> (m - Dist(a, c, t)) % SIZE == 0
  {
    SymHits(a, Idx(a, c) + m, t);
    ModArith(Idx(a, c), Idx(a, t), m);
  }

  /** `Dist` steps from `c` show `t`. */
  lemma DistHits(a: string, c: char, t: char)
    requires IsDrum(a) && OnDrum(a, t) && c != t
    ensures Sym(a, Idx(a, c) + Dist(a, c, t)) == t
  {
    var d := Dist(a, c, t);
    HitsAt(a, c, t, d);
    assert (d - d) % SIZE == 0;
  }

  // ----- The loops -----

  /** From a drum position that does not show the target, the first loop
      walks to the target one step per iteration, arriving with `end`
      iterations used. */
  lemma {:induction false} Walk(a: string, p: int, t: char, o: nat, reached: bool, guard: nat, delay: nat, end: nat)
    requires IsDrum(a) && OnDrum(a, t) && Sym(a, p) != t
    requires end == guard + Gap(a, p, t) <= GUARD
    ensures StepLoop(a, Sym(a, p), t, o, reached, guard, delay)
      == Turn(a, p + 1, Gap(a, p, t), delay) + StepLoop(a, t, t, o, reached, end, 0)
    decreases Gap(a, p, t), 2
  {
    if Gap(a, p, t) == 1 {
      WalkLast(a, p, t, o, reached, guard, delay, end);
    } else {
      WalkOn(a, p, t, o, reached, guard, delay, end);
    }
  }

  lemma WalkLast(a: string, p: int, t: char, o: nat, reached: bool, guard: nat, delay: nat, end: nat)
    requires IsDrum(a) && OnDrum(a, t) && Sym(a, p) != t && Gap(a, p, t) == 1
    requires end == guard + 1 <= GUARD
    ensures StepLoop(a, Sym(a, p), t, o, reached, guard, delay)
      == Turn(a, p + 1, Gap(a, p, t), delay) + StepLoop(a, t, t, o, reached, end, 0)
  {
    GapStep(a, p, t);
    StepCharSym(a, p);
  }

  lemma {:induction false} WalkOn(a: string, p: int, t: char, o: nat, reached: bool, guard: nat, delay: nat, end: nat)
    requires IsDrum(a) && OnDrum(a, t) && Sym(a, p) != t && Gap(a, p, t) > 1
    requires end == guard + Gap(a, p, t) <= GUARD
    ensures StepLoop(a, Sym(a, p), t, o, reached, guard, delay)
      == Turn(a, p + 1, Gap(a, p, t), delay) + StepLoop(a, t, t, o, reached, end, 0)
    decreases Gap(a, p, t), 1
  {
    WalkOnStep(a, p, t, o, reached, guard, delay);
    WalkRest(a, p, t, o, reached, guard, delay, end);
  }

  lemma {:induction false} WalkRest(a: string, p: int, t: char, o: nat, reached: bool, guard: nat, delay: nat, end: nat)
    requires IsDrum(a) && OnDrum(a, t) && Sym(a, p + 1) != t && Gap(a, p, t) > 1
    requires Gap(a, p + 1, t) == Gap(a, p, t) - 1
    requires end == guard + Gap(a, p, t) <= GUARD
    ensures [Flip(Sym(a, p + 1), delay)] + StepLoop(a, Sym(a, p + 1), t, o, reached, guard + 1, 0)
      == Turn(a, p + 1, Gap(a, p, t), delay) + StepLoop(a, t, t, o, reached, end, 0)
    decreases Gap(a, p, t), 0
  {
    Walk(a, p + 1, t, o, reached, guard + 1, 0, end);
    TurnConsJoin(a, p + 1, Gap(a, p + 1, t), Gap(a, p, t), delay, StepLoop(a, t, t, o, reached, end, 0));
  }

  /** One iteration of the walk: a step, after which the target is one
      step nearer and not yet shown. */
  lemma WalkOnStep(a: string, p: int, t: char, o: nat, reached: bool, guard: nat, delay: nat)
    requires IsDrum(a) && OnDrum(a, t) && Sym(a, p) != t && Gap(a, p, t) > 1 && guard < GUARD
    ensures Sym(a, p + 1) != t && Gap(a, p + 1, t) == Gap(a, p, t) - 1
    ensures StepLoop(a, Sym(a, p), t, o, reached, guard, delay)
      == [Flip(Sym(a, p + 1), delay)] + StepLoop(a, Sym(a, p + 1), t, o, reached, guard + 1, 0)
  {
    GapStep(a, p, t);
    StepLoopStep(a, p, t, o, reached, guard, delay);
  }

  /** One iteration of the first loop away from the target. */
  lemma StepLoopStep(a: string, p: int, t: char, o: nat, reached: bool, guard: nat, delay: nat)
    requires IsDrum(a) && Sym(a, p) != t && guard < GUARD
    ensures StepLoop(a, Sym(a, p), t, o, reached, guard, delay)
      == [Flip(Sym(a, p + 1), delay)] + StepLoop(a, Sym(a, p + 1), t, o, reached, guard + 1, 0)
  {
    StepCharSym(a, p);
  }

  /** A first flip followed by a turn and a rest is the longer turn and
      the rest. */
  lemma TurnConsJoin(a: string, q: int, h: nat, g: nat, delay: nat, rest: seq<Flip>)
    requires |a| == SIZE && g == h + 1
    ensures [Flip(Sym(a, q), delay)] + (Turn(a, q + 1, h, 0) + rest) == Turn(a, q, g, delay) + rest
  {
    TurnCons(a, q, g, delay);
    assert [Flip(Sym(a, q), delay)] + Turn(a, q + 1, h, 0) + rest
      == [Flip(Sym(a, q), delay)] + (Turn(a, q + 1, h, 0) + rest);
  }

  /** At the target for the first time with `o > 0`: `o` overshoot flips
      and one more step. */
  lemma OvershootHead(a: string, t: char, o: nat, guard: nat)
    requires IsDrum(a) && OnDrum(a, t) && o > 0 && guard < GUARD
    ensures StepLoop(a, t, t, o, false, guard, 0)
      == Turn(a, Idx(a, t) + 1, o + 1, 0) + StepLoop(a, Sym(a, Idx(a, t) + o + 1), t, o, true, guard + 1, 0)
  {
    var i := Idx(a, t);
    IdxOnDrum(a, t);
    OvershootIsTurn(a, i, o, 0);
    TurnFinal(a, t, i + 1, o, 0);
    StepCharSym(a, i + o);
    TurnAppend(a, i + 1, o, 1, 0);
  }

  /** After overshooting by `o` and one more step, the unit is `o + 1`
      symbols past the target and needs the rest of a full turn. */
  lemma OvershootGap(a: string, t: char, o: nat)
    requires IsDrum(a) && OnDrum(a, t) && 1 <= o <= 2
    ensures Sym(a, Idx(a, t) + o + 1) != t
    ensures Gap(a, Idx(a, t) + o + 1, t) == SIZE - o - 1
  {
    SymHits(a, Idx(a, t) + o + 1, t);
    assert (Idx(a, t) - (Idx(a, t) + o + 1) - 1) % SIZE == SIZE - o - 2;
  }

  /** With `o` of 1 or 2 the first loop, once at the target, takes a full
      turn and stops there. */
  lemma OvershootTurn(a: string, t: char, o: nat, guard: nat)
    requires IsDrum(a) && OnDrum(a, t) && 1 <= o <= 2
    requires guard + SIZE <= GUARD
    ensures StepLoop(a, t, t, o, false, guard, 0) == Turn(a, Idx(a, t) + 1, SIZE, 0)
  {
    OvershootHead(a, t, o, guard);
    OvershootBack(a, t, o, guard);
    OvershootJoin(a, Idx(a, t), o, StepLoop(a, t, t, o, false, guard, 0),
      StepLoop(a, Sym(a, Idx(a, t) + o + 1), t, o, true, guard + 1, 0));
  }

  lemma OvershootJoin(a: string, i: int, o: nat, trace: seq<Flip>, back: seq<Flip>)
    requires |a| == SIZE && o < SIZE
    requires back == Turn(a, i + o + 2, SIZE - o - 1, 0)
    requires trace == Turn(a, i + 1, o + 1, 0) + back
    ensures trace == Turn(a, i + 1, SIZE, 0)
  {
    TurnAppendAt(a, i + 1, o + 1, i + o + 2, SIZE - o - 1, SIZE, 0);
  }

  /** After the overshoot the first loop walks the rest of the turn back
      to the target and stops there for good. */
  lemma OvershootBack(a: string, t: char, o: nat, guard: nat)
    requires IsDrum(a) && OnDrum(a, t) && 1 <= o <= 2
    requires guard + SIZE <= GUARD
    ensures StepLoop(a, Sym(a, Idx(a, t) + o + 1), t, o, true, guard + 1, 0)
      == Turn(a, Idx(a, t) + o + 2, SIZE - o - 1, 0)
  {
    var p := Idx(a, t) + o + 1;
    var g := SIZE - o - 1;
    OvershootGap(a, t, o);
    Walk(a, p, t, o, true, guard + 1, 0, guard + 1 + g);
    var rest := Turn(a, p + 1, g, 0);
    assert StepLoop(a, t, t, o, true, guard + 1 + g, 0) == [];
    assert rest + [] == rest;
  }

  /** Towards a character that is not on the drum the first loop never
      meets the target and runs until the guard stops it. */
  lemma {:induction false} StepLoopForeign(a: string, p: int, t: char, o: nat, reached: bool, guard: nat, delay: nat)
    requires IsDrum(a) && !OnDrum(a, t) && guard <= GUARD
    ensures StepLoop(a, Sym(a, p), t, o, reached, guard, delay) == Turn(a, p + 1, GUARD - guard, delay)
    decreases GUARD - guard, 1
  {
    if guard < GUARD {
      StepLoopForeignOn(a, p, t, o, reached, guard, delay);
    }
  }

  lemma {:induction false} StepLoopForeignOn(a: string, p: int, t: char, o: nat, reached: bool, guard: nat, delay: nat)
    requires IsDrum(a) && !OnDrum(a, t) && guard < GUARD
    ensures StepLoop(a, Sym(a, p), t, o, reached, guard, delay) == Turn(a, p + 1, GUARD - guard, delay)
    decreases GUARD - guard, 0
  {
    StepCharSym(a, p);
    SymHits(a, p, t);
    StepLoopForeign(a, p + 1, t, o, reached, guard + 1, 0);
    assert StepLoop(a, Sym(a, p), t, o, reached, guard, delay)
      == [Flip(Sym(a, p + 1), delay)] + StepLoop(a, Sym(a, p + 1), t, o, reached, guard + 1, 0);
  }

  /** The same for the second loop. */
  lemma {:induction false} ReturnLoopForeign(a: string, p: int, t: char, guard: nat)
    requires IsDrum(a) && !OnDrum(a, t) && guard <= GUARD
    ensures ReturnLoop(a, Sym(a, p), t, guard) == Turn(a, p + 1, GUARD - guard, 0)
    decreases GUARD - guard, 1
  {
    if guard < GUARD {
      ReturnLoopForeignOn(a, p, t, guard);
    }
  }

  lemma {:induction false} ReturnLoopForeignOn(a: string, p: int, t: char, guard: nat)
    requires IsDrum(a) && !OnDrum(a, t) && guard < GUARD
    ensures ReturnLoop(a, Sym(a, p), t, guard) == Turn(a, p + 1, GUARD - guard, 0)
    decreases GUARD - guard, 0
  {
    StepCharSym(a, p);
    SymHits(a, p, t);
    ReturnLoopForeign(a, p + 1, t, guard + 1);
    assert ReturnLoop(a, Sym(a, p), t, guard)
      == [Flip(Sym(a, p + 1), 0)] + ReturnLoop(a, Sym(a, p + 1), t, guard + 1);
  }

  /** The first iteration from a character that is not the target. */
  lemma StepLoopFirst(a: string, c: char, t: char, o: nat, guard: nat, delay: nat)
    requires |a| == SIZE && c != t && guard < GUARD
    ensures StepLoop(a, c, t, o, false, guard, delay)
      == [Flip(Sym(a, Idx(a, c) + 1), delay)] + StepLoop(a, Sym(a, Idx(a, c) + 1), t, o, false, guard + 1, 0)
  {
  }

  // ----- Closed form of step mode -----

  /** One step from the character `c` shortens the way to `t` by one. */
  lemma DistNext(a: string, c: char, t: char)
    requires IsDrum(a) && c != t && OnDrum(a, t)
    ensures 1 <= Dist(a, c, t) <= SIZE
    ensures Sym(a, Idx(a, c) + 1) == t <==> Dist(a, c, t) == 1
    ensures Dist(a, c, t) > 1 ==> Gap(a, Idx(a, c) + 1, t) == Dist(a, c, t) - 1
  {
    SymHits(a, Idx(a, c) + 1, t);
    GapNext(Idx(a, c), Idx(a, t));
  }

  lemma GapNext(p: int, i: int)
    requires 0 <= i < SIZE
    ensures 1 <= 1 + (i - p - 1) % SIZE <= SIZE
    ensures (p + 1) % SIZE == i <==> (i - p - 1) % SIZE == 0
    ensures (i - p - 1) % SIZE > 0 ==> 1 + (i - p - 2) % SIZE == (i - p - 1) % SIZE
  {
  }

  /** From any character other than the drum symbol `t`, the first loop
      walks `Dist` steps to `t`. */
  lemma WalkFrom(a: string, c: char, t: char, o: nat, delay: nat)
    requires IsDrum(a) && c != t && OnDrum(a, t)
    ensures Dist(a, c, t) <= SIZE
    ensures StepLoop(a, c, t, o, false, 0, delay)
      == Turn(a, Idx(a, c) + 1, Dist(a, c, t), delay) + StepLoop(a, t, t, o, false, Dist(a, c, t), 0)
  {
    DistNext(a, c, t);
    StepLoopFirst(a, c, t, o, 0, delay);
    if Dist(a, c, t) > 1 {
      WalkFromFar(a, c, t, o, delay);
    }
  }

  lemma WalkFromFar(a: string, c: char, t: char, o: nat, delay: nat)
    requires IsDrum(a) && c != t && OnDrum(a, t)
    requires 1 < Dist(a, c, t) <= SIZE
    requires Sym(a, Idx(a, c) + 1) != t && Gap(a, Idx(a, c) + 1, t) == Dist(a, c, t) - 1
    ensures StepLoop(a, Sym(a, Idx(a, c) + 1), t, o, false, 1, 0)
      == Turn(a, Idx(a, c) + 2, Dist(a, c, t) - 1, 0) + StepLoop(a, t, t, o, false, Dist(a, c, t), 0)
  {
    Walk(a, Idx(a, c) + 1, t, o, false, 1, 0, Dist(a, c, t));
  }

  /** Towards a drum symbol the first loop ends on the target after
      `StepFlips` flips. */
  lemma StepTraceOnDrum(a: string, c: char, t: char, delay: nat, o: nat)
    requires IsDrum(a) && c != t && OnDrum(a, t) && o <= 2
    ensures StepLoop(a, c, t, o, false, 0, delay) == Turn(a, Idx(a, c) + 1, StepFlips(a, c, t, o), delay)
    ensures Final(c, StepLoop(a, c, t, o, false, 0, delay)) == t
  {
    if o == 0 {
      OnDrumPlain(a, c, t, delay);
    } else {
      OnDrumOvershoot(a, c, t, delay, o);
    }
  }

  lemma OnDrumPlain(a: string, c: char, t: char, delay: nat)
    requires IsDrum(a) && c != t && OnDrum(a, t)
    ensures StepLoop(a, c, t, 0, false, 0, delay) == Turn(a, Idx(a, c) + 1, Dist(a, c, t), delay)
    ensures Final(c, StepLoop(a, c, t, 0, false, 0, delay)) == t
  {
    WalkFrom(a, c, t, 0, delay);
    PlainCompose(a, c, t, delay, StepLoop(a, c, t, 0, false, 0, delay));
  }

  lemma PlainCompose(a: string, c: char, t: char, delay: nat, first: seq<Flip>)
    requires IsDrum(a) && c != t && OnDrum(a, t)
    requires first == Turn(a, Idx(a, c) + 1, Dist(a, c, t), delay) + StepLoop(a, t, t, 0, false, Dist(a, c, t), 0)
    ensures first == Turn(a, Idx(a, c) + 1, Dist(a, c, t), delay)
    ensures Final(c, first) == t
  {
    DistNext(a, c, t);
    DistHits(a, c, t);
    StepTracePlain(a, c, t, Idx(a, c), Dist(a, c, t), delay, first);
  }

  lemma OnDrumOvershoot(a: string, c: char, t: char, delay: nat, o: nat)
    requires IsDrum(a) && c != t && OnDrum(a, t) && 1 <= o <= 2
    ensures StepLoop(a, c, t, o, false, 0, delay) == Turn(a, Idx(a, c) + 1, Dist(a, c, t) + SIZE, delay)
    ensures Final(c, StepLoop(a, c, t, o, false, 0, delay)) == t
  {
    WalkFrom(a, c, t, o, delay);
    OvershootTurn(a, t, o, Dist(a, c, t));
    OvershootCompose(a, c, t, delay, StepLoop(a, c, t, o, false, 0, delay), StepLoop(a, t, t, o, false, Dist(a, c, t), 0));
  }

  lemma OvershootCompose(a: string, c: char, t: char, delay: nat, first: seq<Flip>, over: seq<Flip>)
    requires IsDrum(a) && c != t && OnDrum(a, t)
    requires over == Turn(a, Idx(a, t) + 1, SIZE, 0)
    requires first == Turn(a, Idx(a, c) + 1, Dist(a, c, t), delay) + over
    ensures first == Turn(a, Idx(a, c) + 1, Dist(a, c, t) + SIZE, delay)
    ensures Final(c, first) == t
  {
    OverFromTarget(a, c, t, over);
    StepTraceOvershoot(a, c, Idx(a, c), Dist(a, c, t), delay);
  }

  /** The full turn after reaching the target starts where the walk from
      `c` stopped. */
  lemma OverFromTarget(a: string, c: char, t: char, over: seq<Flip>)
    requires IsDrum(a) && c != t && OnDrum(a, t)
    requires over == Turn(a, Idx(a, t) + 1, SIZE, 0)
    ensures Dist(a, c, t) >= 1 && Sym(a, Idx(a, c) + Dist(a, c, t)) == t
    ensures over == Turn(a, Idx(a, c) + Dist(a, c, t) + 1, SIZE, 0)
  {
    DistNext(a, c, t);
    DistHits(a, c, t);
    TurnFromTarget(a, t, Idx(a, c) + Dist(a, c, t), SIZE, 0);
  }

  /** Without overshoot the first loop stops on reaching the target. */
  lemma StepTracePlain(a: string, c: char, t: char, p: int, d: nat, delay: nat, first: seq<Flip>)
    requires |a| == SIZE && 1 <= d <= SIZE
    requires first == Turn(a, p + 1, d, delay) + StepLoop(a, t, t, 0, false, d, 0)
    ensures first == Turn(a, p + 1, d, delay)
    ensures Final(c, first) == Sym(a, p + d)
  {
    var walk := Turn(a, p + 1, d, delay);
    assert StepLoop(a, t, t, 0, false, d, 0) == [];
    assert walk + [] == walk;
    TurnFinal(a, c, p + 1, d, delay);
  }

  /** With overshoot the first loop adds a full turn after reaching the
      target, and stops on it again. */
  lemma StepTraceOvershoot(a: string, c: char, p: int, d: nat, delay: nat)
    requires |a| == SIZE && d >= 1
    ensures Turn(a, p + 1, d, delay) + Turn(a, p + d + 1, SIZE, 0) == Turn(a, p + 1, d + SIZE, delay)
    ensures Final(c, Turn(a, p + 1, d + SIZE, delay)) == Sym(a, p + d)
  {
    var n := d + SIZE;
    TurnAppend(a, p + 1, d, SIZE, delay);
    TurnFinal(a, c, p + 1, n, delay);
    assert p + 1 + n - 1 == p + d + SIZE;
    SymRound(a, p + d);
  }

  /** A turn after the drum symbol `t` is the same from any position that
      shows `t`. */
  lemma TurnFromTarget(a: string, t: char, q: int, n: nat, delay: nat)
    requires IsDrum(a) && OnDrum(a, t) && Sym(a, q) == t
    ensures Turn(a, Idx(a, t) + 1, n, delay) == Turn(a, q + 1, n, delay)
  {
    SymHits(a, q, t);
    TurnShift(a, Idx(a, t) + 1, q + 1, n, delay);
  }

  /** Towards a character that is not on the drum both loops run out
      their guard. */
  lemma StepTraceForeign(a: string, c: char, t: char, delay: nat, o: nat)
    requires IsDrum(a) && c != t && !OnDrum(a, t)
    ensures var first := StepLoop(a, c, t, o, false, 0, delay);
      first + ReturnLoop(a, Final(c, first), t, 0) == Turn(a, Idx(a, c) + 1, 2 * GUARD, delay)
  {
    ForeignFirst(a, c, t, delay, o, 0);
    ForeignSecond(a, c, t, delay, StepLoop(a, c, t, o, false, 0, delay));
  }

  lemma ForeignFirst(a: string, c: char, t: char, delay: nat, o: nat, guard: nat)
    requires IsDrum(a) && c != t && !OnDrum(a, t) && guard < GUARD
    ensures StepLoop(a, c, t, o, false, guard, delay) == Turn(a, Idx(a, c) + 1, GUARD - guard, delay)
  {
    StepLoopFirst(a, c, t, o, guard, delay);
    ForeignRest(a, t, o, Idx(a, c), guard, delay, StepLoop(a, c, t, o, false, guard, delay));
  }

  lemma ForeignRest(a: string, t: char, o: nat, p: int, guard: nat, delay: nat, first: seq<Flip>)
    requires IsDrum(a) && !OnDrum(a, t) && guard < GUARD
    requires first == [Flip(Sym(a, p + 1), delay)] + StepLoop(a, Sym(a, p + 1), t, o, false, guard + 1, 0)
    ensures first == Turn(a, p + 1, GUARD - guard, delay)
  {
    StepLoopForeign(a, p + 1, t, o, false, guard + 1, 0);
    TurnConsOf(a, p + 1, GUARD - guard, delay, first, StepLoop(a, Sym(a, p + 1), t, o, false, guard + 1, 0));
  }

  lemma ForeignSecond(a: string, c: char, t: char, delay: nat, first: seq<Flip>)
    requires IsDrum(a) && !OnDrum(a, t)
    requires first == Turn(a, Idx(a, c) + 1, GUARD, delay)
    ensures first + ReturnLoop(a, Final(c, first), t, 0) == Turn(a, Idx(a, c) + 1, 2 * GUARD, delay)
  {
    ForeignSecondAt(a, c, t, Idx(a, c), delay, first);
  }

  lemma ForeignSecondAt(a: string, c: char, t: char, p: int, delay: nat, first: seq<Flip>)
    requires IsDrum(a) && !OnDrum(a, t)
    requires first == Turn(a, p + 1, GUARD, delay)
    ensures first + ReturnLoop(a, Final(c, first), t, 0) == Turn(a, p + 1, 2 * GUARD, delay)
  {
    TurnFinal(a, c, p + 1, GUARD, delay);
    ReturnLoopForeign(a, p + GUARD, t, 0);
    TurnAppend(a, p + 1, GUARD, GUARD, delay);
  }

  /** Closed form of step mode: every step-mode transition is the turn of
      `StepFlips` successive drum symbols after the one shown. */
  lemma StepTrace(a: string, c: char, t: char, delay: nat, overshoot: bool, roll: Roll)
    requires IsDrum(a) && c != t
    ensures FlipToChar(a, c, t, delay, Step, overshoot, roll)
      == Turn(a, Idx(a, c) + 1, StepFlips(a, c, t, OvershootSteps(overshoot, roll)), delay)
  {
    var o := OvershootSteps(overshoot, roll);
    if OnDrum(a, t) {
      StepTraceOnDrum(a, c, t, delay, o);
      var first := StepLoop(a, c, t, o, false, 0, delay);
      assert ReturnLoop(a, t, t, 0) == [];
      assert first + [] == first;
    } else {
      StepTraceForeign(a, c, t, delay, o);
    }
  }

  // ----- Properties of a transition -----

  lemma ModWindow(x: int)
    requires 0 < x + SIZE && x <= SIZE
    ensures x % SIZE == 0 <==> x == 0 || x == SIZE
  {
  }

  /** Flip `k` of the turn from `c` shows the drum symbol `t` exactly when
      `k + 1` steps are congruent to the distance. */
  lemma TurnHits(a: string, c: char, t: char, n: nat, delay: nat, k: nat)
    requires IsDrum(a) && OnDrum(a, t) && c != t && k < n
    ensures Turn(a, Idx(a, c) + 1, n, delay)[k].symbol == t <==> (k + 1 - Dist(a, c, t)) % SIZE == 0
  {
    TurnAt(a, Idx(a, c) + 1, n, delay, k);
    HitsAt(a, c, t, k + 1);
  }

  /** The turn of `Dist` flips shows `t` only at its end. */
  lemma TurnHitsOnce(a: string, c: char, t: char, delay: nat)
    requires IsDrum(a) && OnDrum(a, t) && c != t && 1 <= Dist(a, c, t) <= SIZE
    ensures var r := Turn(a, Idx(a, c) + 1, Dist(a, c, t), delay);
      forall k :: 0 <= k < |r| ==> (r[k].symbol == t <==> k == |r| - 1)
  {
    var d := Dist(a, c, t);
    var r := Turn(a, Idx(a, c) + 1, d, delay);
    forall k | 0 <= k < d
      ensures r[k].symbol == t <==> k == d - 1
    {
      TurnHits(a, c, t, d, delay, k);
      ModWindow(k + 1 - d);
    }
  }

  /** The turn of `Dist` flips and a full turn more shows `t` after
      `Dist` flips and at its end. */
  lemma TurnHitsTwice(a: string, c: char, t: char, delay: nat)
    requires IsDrum(a) && OnDrum(a, t) && c != t && 1 <= Dist(a, c, t) <= SIZE
    ensures var r := Turn(a, Idx(a, c) + 1, Dist(a, c, t) + SIZE, delay);
      forall k :: 0 <= k < |r| ==> (r[k].symbol == t <==> k == Dist(a, c, t) - 1 || k == |r| - 1)
  {
    var d := Dist(a, c, t);
    var r := Turn(a, Idx(a, c) + 1, d + SIZE, delay);
    forall k | 0 <= k < d + SIZE
      ensures r[k].symbol == t <==> k == d - 1 || k == d + SIZE - 1
    {
      TurnHits(a, c, t, d + SIZE, delay, k);
      ModWindow(k + 1 - d);
    }
  }

  /** Step mode without overshoot, towards a drum symbol: `Dist` flips,
      each to the successor of the symbol before, only the first delayed,
      and the target shows at the last flip and nowhere before it. */
  lemma StepModePlain(a: string, c: char, t: char, delay: nat, overshoot: bool, roll: Roll)
    requires IsDrum(a) && OnDrum(a, t) && !(overshoot && roll.hit)
    ensures var r := FlipToChar(a, c, t, delay, Step, overshoot, roll);
      && |r| == Dist(a, c, t) <= SIZE
      && Final(c, r) == t
      && SuccessorChain(a, c, r)
      && OnlyFirstDelayed(r, delay)
      && (forall k :: 0 <= k < |r| ==> (r[k].symbol == t <==> k == |r| - 1))
  {
    if c != t {
      var d := Dist(a, c, t);
      StepTrace(a, c, t, delay, overshoot, roll);
      StepTraceOnDrum(a, c, t, delay, 0);
      TurnIsSuccessorChain(a, c, d, delay);
      DistNext(a, c, t);
      TurnHitsOnce(a, c, t, delay);
    }
  }

  /** Step mode with overshoot, towards a drum symbol other than the one
      shown: a full turn more than without, still ending on the target,
      which shows exactly twice, at flip `Dist` and at the last flip. */
  lemma StepModeOvershoot(a: string, c: char, t: char, delay: nat, roll: Roll)
    requires IsDrum(a) && OnDrum(a, t) && c != t && roll.hit
    ensures var r := FlipToChar(a, c, t, delay, Step, true, roll);
      var d := Dist(a, c, t);
      && |r| == d + SIZE
      && Final(c, r) == t
      && SuccessorChain(a, c, r)
      && OnlyFirstDelayed(r, delay)
      && (forall k :: 0 <= k < |r| ==> (r[k].symbol == t <==> k == d - 1 || k == |r| - 1))
  {
    var d := Dist(a, c, t);
    var o := OvershootSteps(true, roll);
    StepTrace(a, c, t, delay, true, roll);
    StepTraceOnDrum(a, c, t, delay, o);
    TurnIsSuccessorChain(a, c, d + SIZE, delay);
    DistNext(a, c, t);
    TurnHitsTwice(a, c, t, delay);
  }

  /** Towards a character that is not on the drum, step mode never shows
      it and gives up after both loops' guards: 280 flips. */
  lemma StepModeForeign(a: string, c: char, t: char, delay: nat, overshoot: bool, roll: Roll)
    requires IsDrum(a) && !OnDrum(a, t) && c != t
    ensures var r := FlipToChar(a, c, t, delay, Step, overshoot, roll);
      && |r| == 2 * GUARD
      && Final(c, r) != t
      && SuccessorChain(a, c, r)
      && OnlyFirstDelayed(r, delay)
      && (forall k :: 0 <= k < |r| ==> r[k].symbol != t)
  {
    StepTrace(a, c, t, delay, overshoot, roll);
    ForeignTurn(a, c, t, 2 * GUARD, delay, FlipToChar(a, c, t, delay, Step, overshoot, roll));
  }

  lemma ForeignTurn(a: string, c: char, t: char, n: nat, delay: nat, r: seq<Flip>)
    requires IsDrum(a) && !OnDrum(a, t) && n > 0
    requires r == Turn(a, Idx(a, c) + 1, n, delay)
    ensures |r| == n && Final(c, r) != t
    ensures SuccessorChain(a, c, r) && OnlyFirstDelayed(r, delay)
    ensures forall k :: 0 <= k < |r| ==> r[k].symbol != t
  {
    TurnIsSuccessorChain(a, c, n, delay);
    TurnMisses(a, Idx(a, c) + 1, t, n, delay, r);
  }

  /** A turn never shows a character that is not on the drum. */
  lemma TurnMisses(a: string, p: int, t: char, n: nat, delay: nat, r: seq<Flip>)
    requires IsDrum(a) && !OnDrum(a, t)
    requires r == Turn(a, p, n, delay)
    ensures forall k :: 0 <= k < |r| ==> r[k].symbol != t
  {
    forall k | 0 <= k < n
      ensures r[k].symbol != t
    {
      TurnAt(a, p, n, delay, k);
      SymHits(a, p + k, t);
    }
  }

  /** A transition ends on its target exactly when there is nothing to do,
      the mode is direct, or the target is on the drum. */
  lemma SettlesIff(a: string, c: char, t: char, delay: nat, mode: CharMode, overshoot: bool, roll: Roll)
    requires IsDrum(a)
    ensures Final(c, FlipToChar(a, c, t, delay, mode, overshoot, roll)) == t
      <==> c == t || mode == Direct || OnDrum(a, t)
  {
    if c != t && mode == Step {
      if OnDrum(a, t) {
        if overshoot && roll.hit {
          StepModeOvershoot(a, c, t, delay, roll);
        } else {
          StepModePlain(a, c, t, delay, overshoot, roll);
        }
      } else {
        StepModeForeign(a, c, t, delay, overshoot, roll);
      }
    }
  }

  /** Every transition terminates within the two guards. */
  lemma FlipCountBound(a: string, c: char, t: char, delay: nat, mode: CharMode, overshoot: bool, roll: Roll)
    requires IsDrum(a)
    ensures |FlipToChar(a, c, t, delay, mode, overshoot, roll)| <= 2 * GUARD
  {
    if c != t && mode == Step {
      StepTrace(a, c, t, delay, overshoot, roll);
      if OnDrum(a, t) {
        DistNext(a, c, t);
      }
    }
  }

  /** Between two drum symbols the distance is the forward difference of
      their positions. */
  lemma DistFormula(a: string, c: char, t: char)
    requires IsDrum(a) && OnDrum(a, c) && OnDrum(a, t)
    ensures Dist(a, c, t) == (Idx(a, t) - Idx(a, c) + SIZE) % SIZE
  {
    IdxOnDrum(a, c);
    IdxOnDrum(a, t);
    if c != t {
      assert Idx(a, c) != Idx(a, t);
      GapFormula(Idx(a, c), Idx(a, t));
    }
  }

  lemma GapFormula(x: int, y: int)
    requires 0 <= x < SIZE && 0 <= y < SIZE && x != y
    ensures 1 + (y - x - 1) % SIZE == (y - x + SIZE) % SIZE
  {
  }

  /** A shown character that is off the drum counts as the first symbol,
      so stepping to that symbol takes a full turn. */
  lemma ForeignToFirst(a: string, c: char)
    requires IsDrum(a) && !OnDrum(a, Text.UpperChar(c))
    ensures Dist(a, c, a[0]) == SIZE
  {
    SymOnDrum(a, 0);
    IdxOfSym(a, 0);
    AllUpperAt(a, 0);
  }
}
