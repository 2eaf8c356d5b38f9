// Bounding a proposed look and ramping to it (auto.py, with the limits of director/limits.py).
module LookRamp {
  import opened Prelude
  import opened Rounding
  import opened Smoothstep

  /** A look: its numbers and its switches. */
  datatype Look = Look(numbers: map<string, real>, flags: map<string, bool>)

  datatype Limit = Limit(low: real, high: real)

  /** The hard limits and the largest change of one pass, by parameter (director/limits.py). */
  datatype Rules = Rules(limits: map<string, Limit>, steps: map<string, real>)

  const COLOR_KEYS: seq<string> := ["brightness", "contrast", "gamma", "saturation", "warmth"]
  const FLAG_KEYS: set<string> := {"lut_enabled", "sharpen_enabled"}

  ghost predicate GoodLimit(limit: Limit)
  {
    limit.low <= limit.high && OnGrid(limit.low) && OnGrid(limit.high)
  }

  ghost predicate GoodRules(rules: Rules)
  {
    && rules.steps.Keys <= rules.limits.Keys
    && (forall key :: key in rules.limits ==> GoodLimit(rules.limits[key]))
    && (forall key :: key in rules.steps ==> rules.steps[key] >= 0.0 && OnGrid(rules.steps[key]))
  }

  function Min(a: real, b: real): real { if a <= b then a else b }
  function Max(a: real, b: real): real { if a >= b then a else b }

  function Clamp(limit: Limit, value: real): real
  {
    Max(limit.low, Min(limit.high, value))
  }

  /** One bounded number: at most a step away from the look, then inside the limits, then rounded. */
  function BoundedNumber(limit: Limit, step: real, now: real, proposed: real): real
  {
    Round4(Clamp(limit, Max(now - step, Min(now + step, proposed))))
  }

  /** What `bounded` makes of one number of the look. */
  function BoundedAt(rules: Rules, proposal: Look, look: Look, key: string): real
    requires rules.steps.Keys <= rules.limits.Keys && key in look.numbers
  {
    if key in rules.steps && key in proposal.numbers then
      BoundedNumber(rules.limits[key], rules.steps[key], look.numbers[key], proposal.numbers[key])
    else look.numbers[key]
  }

  function BoundedFlag(proposal: Look, look: Look, key: string): bool
    requires key in look.flags
  {
    if key in FLAG_KEYS && key in proposal.flags then proposal.flags[key] else look.flags[key]
  }

  /** `bounded`; the proposal holds the finite numbers and the switches it names, anything else is ignored. */
  function Bounded(rules: Rules, proposal: Look, look: Look): Look
    requires rules.steps.Keys <= rules.limits.Keys
  {
    Look(map key | key in look.numbers :: BoundedAt(rules, proposal, look, key),
         map key | key in look.flags :: BoundedFlag(proposal, look, key))
  }

  /** The first loop of `bounded`, over the items of the step table in any order. */
  method BoundNumbers(rules: Rules, items: seq<string>, proposal: Look, look: Look) returns (numbers: map<string, real>)
    requires rules.steps.Keys <= rules.limits.Keys && (forall key :: key in items <==> key in rules.steps)
    ensures numbers == Bounded(rules, proposal, look).numbers
  {
    numbers := look.numbers;
    for i := 0 to |items|
      invariant numbers.Keys == look.numbers.Keys
      invariant forall key :: key in numbers && key in items[..i] ==> numbers[key] == BoundedAt(rules, proposal, look, key)
      invariant forall key :: key in numbers && key !in items[..i] ==> numbers[key] == look.numbers[key]
    {
      var key := items[i];
      assert key in rules.steps && items[..i + 1] == items[..i] + [key];
      if key in look.numbers && key in proposal.numbers {
        var step, now := rules.steps[key], look.numbers[key];
        var wanted := Max(now - step, Min(now + step, proposal.numbers[key]));
        numbers := numbers[key := Round4(Clamp(rules.limits[key], wanted))];
      }
    }
    assert items[..|items|] == items;
  }

  /** The second loop of `bounded`. */
  method BoundFlags(proposal: Look, look: Look) returns (flags: map<string, bool>)
    ensures flags == map key | key in look.flags :: BoundedFlag(proposal, look, key)
  {
    flags := look.flags;
    var keys := ["lut_enabled", "sharpen_enabled"];
    for i := 0 to |keys|
      invariant flags.Keys == look.flags.Keys
      invariant forall key :: key in flags ==>
                  flags[key] == if key in keys[..i] then BoundedFlag(proposal, look, key) else look.flags[key]
    {
      if keys[i] in proposal.flags && keys[i] in look.flags {
        flags := flags[keys[i] := proposal.flags[keys[i]]];
      }
    }
    assert keys[..|keys|] == keys;
  }

  ghost predicate InLimits(rules: Rules, look: Look)
  {
    forall key :: key in look.numbers && key in rules.limits ==>
      rules.limits[key].low <= look.numbers[key] <= rules.limits[key].high
  }

  lemma BoundedNumberRange(limit: Limit, step: real, now: real, proposed: real)
    requires limit.low <= limit.high && OnGrid(limit.low) && OnGrid(limit.high)
    requires step >= 0.0 && limit.low <= now <= limit.high
    ensures var target := BoundedNumber(limit, step, now, proposed);
            && limit.low <= target <= limit.high && OnGrid(target)
            && now - step - 0.00005 <= target <= now + step + 0.00005
            && (OnGrid(now - step) && OnGrid(now + step) ==> now - step <= target <= now + step)
  {
    var clamped := Clamp(limit, Max(now - step, Min(now + step, proposed)));
    RoundMonotone(limit.low, clamped);
    RoundMonotone(clamped, limit.high);
    RoundOnGrid(limit.low);
    RoundOnGrid(limit.high);
    RoundOnGrid(clamped);
    RoundClose(clamped);
    RoundMonotone(now - step, clamped);
    RoundMonotone(clamped, now + step);
    RoundOnGrid(now - step);
    RoundOnGrid(now + step);
  }

  /** A bounded target stays inside the limits and within one step of the look (up to the rounding). */
  lemma BoundedStays(rules: Rules, proposal: Look, look: Look)
    requires GoodRules(rules) && InLimits(rules, look)
    ensures InLimits(rules, Bounded(rules, proposal, look))
    ensures forall key :: key in look.numbers && key in rules.steps ==>
              var now, target := look.numbers[key], Bounded(rules, proposal, look).numbers[key];
              now - rules.steps[key] - 0.00005 <= target <= now + rules.steps[key] + 0.00005
  {
    forall key | key in look.numbers && key in rules.steps && key in proposal.numbers
      ensures var now, target := look.numbers[key], Bounded(rules, proposal, look).numbers[key];
              && rules.limits[key].low <= target <= rules.limits[key].high
              && now - rules.steps[key] - 0.00005 <= target <= now + rules.steps[key] + 0.00005
    {
      BoundedNumberRange(rules.limits[key], rules.steps[key], look.numbers[key], proposal.numbers[key]);
    }
  }

  // ----- The ramp -----

  /** `step / steps`. */
  function Fraction(step: nat, n: nat): real
    requires n > 0
  {
    step as real / n as real
  }

  function Blend(start: real, target: real, share: real): real
  {
    start + (target - start) * share
  }

  /** The value before rounding, `mix` of the way through the ramp. */
  function Mixed(start: real, target: real, mix: real): real
  {
    Blend(start, target, Smooth(mix))
  }

  function Written(start: real, target: real, mix: real): real
  {
    Round4(Mixed(start, target, mix))
  }

  /** The colour keys both looks have. */
  function RampKeys(start: Look, target: Look): set<string>
  {
    set key | key in COLOR_KEYS && key in target.numbers && key in start.numbers
  }

  function RampWrite(start: Look, target: Look, step: nat, n: nat): map<string, real>
    requires n > 0
  {
    map key | key in RampKeys(start, target) :: Written(start.numbers[key], target.numbers[key], Fraction(step, n))
  }

  predicate ColorDiffers(start: Look, target: Look)
  {
    exists key :: key in RampKeys(start, target) && target.numbers[key] != start.numbers[key]
  }

  /** How many writes happen: none when no colour differs; a cancelled ramp stops early. */
  function WriteCount(start: Look, target: Look, steps: int, cancelAfter: Option<nat>): nat
  {
    if !ColorDiffers(start, target) || steps <= 0 then 0
    else if cancelAfter.Some? && cancelAfter.value < steps then cancelAfter.value
    else steps
  }

  function RampWrites(start: Look, target: Look, n: nat, count: nat): seq<map<string, real>>
    requires n > 0
  {
    seq(count, i requires 0 <= i < count => RampWrite(start, target, i + 1, n))
  }

  function AllWrites(start: Look, target: Look, steps: int, count: nat): seq<map<string, real>>
    requires count > 0 ==> steps > 0
  {
    if count == 0 then [] else RampWrites(start, target, steps, count)
  }

  /** The engine's look, and every colour write it got. */
  class ConsoleLink {
    var look: Look
    var writes: seq<map<string, real>>

    constructor (look: Look)
      ensures this.look == look && writes == []
    {
      this.look := look;
      writes := [];
    }

    method SetColor(values: map<string, real>)
      modifies this
      ensures look == old(look).(numbers := old(look).numbers + values) && writes == old(writes) + [values]
    {
      look := look.(numbers := look.numbers + values);
      writes := writes + [values];
    }

    method SetExtras(numbers: map<string, real>, flags: map<string, bool>)
      modifies this
      ensures look == Look(old(look).numbers + numbers, old(look).flags + flags) && writes == old(writes)
    {
      look := Look(look.numbers + numbers, look.flags + flags);
    }
  }

  function Ramped(look: Look, start: Look, target: Look, steps: int, count: nat): Look
    requires count > 0 ==> steps > 0
  {
    if count == 0 then look else look.(numbers := look.numbers + RampWrite(start, target, count, steps))
  }

  /** The values of one write. */
  method StepValues(start: Look, target: Look, keys: set<string>, step: nat, steps: nat) returns (values: map<string, real>)
    requires steps > 0 && keys == RampKeys(start, target)
    ensures values == RampWrite(start, target, step, steps)
  {
    var mix := step as real / steps as real;
    mix := mix * mix * (3.0 - 2.0 * mix);
    assert mix == Smooth(Fraction(step, steps));
    values := map key | key in keys ::
      Round4(Blend(start.numbers[key], target.numbers[key], mix));
  }

  lemma RampWritesPush(start: Look, target: Look, n: nat, count: nat)
    requires n > 0 && count > 0
    ensures RampWrites(start, target, n, count)
         == RampWrites(start, target, n, count - 1) + [RampWrite(start, target, count, n)]
  {
  }

  /** `ramp`: the event may stop it before a write or during the wait after one. */
  method Ramp(link: ConsoleLink, start: Look, target: Look, steps: int, cancelAfter: Option<nat>)
    modifies link
    ensures var count := WriteCount(start, target, steps, cancelAfter);
            && link.writes == old(link.writes) + AllWrites(start, target, steps, count)
            && link.look == Ramped(old(link.look), start, target, steps, count)
  {
    var keys := RampKeys(start, target);
    if !ColorDiffers(start, target) {
      return;
    }
    if steps > 0 {
      RampLoop(link, start, target, keys, steps, cancelAfter);
    }
  }

  /** The loop of `ramp`, once a colour differs. */
  method RampLoop(
    link: ConsoleLink, start: Look, target: Look, keys: set<string>, steps: nat, cancelAfter: Option<nat>)
    requires steps > 0 && keys == RampKeys(start, target)
    modifies link
    ensures var count := if cancelAfter.Some? && cancelAfter.value < steps then cancelAfter.value else steps;
            && link.writes == old(link.writes) + RampWrites(start, target, steps, count)
            && link.look == Ramped(old(link.look), start, target, steps, count)
  {
    ghost var writes, look := link.writes, link.look;
    var step := 1;
    while step <= steps
      invariant 1 <= step <= steps + 1
      invariant cancelAfter.Some? ==> step - 1 <= cancelAfter.value
      invariant link.writes == writes + RampWrites(start, target, steps, step - 1)
      invariant link.look == Ramped(look, start, target, steps, step - 1)
    {
      if cancelAfter.Some? && step - 1 >= cancelAfter.value {
        break;
      }
      var values := StepValues(start, target, keys, step, steps);
      RampWritesPush(start, target, steps, step);
      RampedPush(look, start, target, steps, step);
      link.SetColor(values);
      step := step + 1;
    }
  }

  lemma RampedPush(look: Look, start: Look, target: Look, steps: int, count: nat)
    requires 0 < count && steps > 0
    ensures var before := Ramped(look, start, target, steps, count - 1);
            before.(numbers := before.numbers + RampWrite(start, target, count, steps))
            == Ramped(look, start, target, steps, count)
  {
    if count > 1 {
      var a, b := RampWrite(start, target, count - 1, steps), RampWrite(start, target, count, steps);
      assert a.Keys == b.Keys;
      assert look.numbers + a + b == look.numbers + b;
    }
  }

  // ----- What every write keeps -----

  predicate Between(a: real, x: real, b: real)
  {
    Min(a, b) <= x <= Max(a, b)
  }

  lemma Fractions(step: nat, n: nat)
    requires n > 0 && step <= n
    ensures 0.0 <= Fraction(step, n) <= 1.0
    ensures step < n ==> Fraction(step + 1, n) == Fraction(step, n) + Fraction(1, n)
    ensures step == n ==> Fraction(step, n) == 1.0
  {
  }

  /** A move from u to v towards the target, by at most 1.5 h of the whole change plus some slack. */
  predicate MovesTowards(start: real, target: real, u: real, v: real, h: real, slack: real)
  {
    && (start <= target ==> u <= v <= u + 1.5 * h * (target - start) + slack)
    && (target <= start ==> u >= v >= u - 1.5 * h * (start - target) - slack)
  }

  lemma BlendMoves(start: real, target: real, a: real, b: real, h: real)
    requires a <= b <= a + 1.5 * h
    ensures MovesTowards(start, target, Blend(start, target, a), Blend(start, target, b), h, 0.0)
  {
    var d, rise, most := target - start, b - a, 1.5 * h;
    assert d * b - d * a == d * rise;
    assert most * d - d * rise == d * (most - rise);
    if start <= target {
      Product(d, rise);
      Product(d, most - rise);
    }
    if target <= start {
      Product(-d, rise);
      Product(-d, most - rise);
    }
  }

  /** Before rounding, a step of h moves towards the target by at most 1.5 h of the whole change. */
  lemma MixedMoves(start: real, target: real, x: real, y: real, h: real)
    requires 0.0 <= x <= y <= 1.0 && y == x + h
    ensures MovesTowards(start, target, Mixed(start, target, x), Mixed(start, target, y), h, 0.0)
  {
    SmoothSteps(x, y);
    BlendMoves(start, target, Smooth(x), Smooth(y), h);
  }

  lemma BlendBetween(start: real, target: real, share: real)
    requires 0.0 <= share <= 1.0
    ensures Between(start, Blend(start, target, share), target)
  {
    var d := target - start;
    if d >= 0.0 {
      Product(d, share);
      Product(d, 1.0 - share);
    } else {
      Product(-d, share);
      Product(-d, 1.0 - share);
    }
  }

  lemma MixedBetween(start: real, target: real, mix: real)
    requires 0.0 <= mix <= 1.0
    ensures Between(start, Mixed(start, target, mix), target)
  {
    SmoothRange(mix);
    BlendBetween(start, target, Smooth(mix));
  }

  lemma MixedEnd(start: real, target: real)
    ensures Mixed(start, target, 1.0) == target
  {
    assert Smooth(1.0) == 1.0;
  }

  /** Every written value lies between the rounded start and the rounded target; so it lies between start and target
      themselves whenever rounding does not push one of them out of that range. */
  lemma WrittenBetween(start: real, target: real, mix: real)
    requires 0.0 <= mix <= 1.0
    ensures Between(Round4(start), Written(start, target, mix), Round4(target))
    ensures Between(start, Round4(start), target) && Between(start, Round4(target), target) ==>
              Between(start, Written(start, target, mix), target)
  {
    MixedBetween(start, target, mix);
    RoundMonotone(Min(start, target), Mixed(start, target, mix));
    RoundMonotone(Mixed(start, target, mix), Max(start, target));
  }

  /** The writes rise or fall one way, so the first and the last one decide. */
  lemma WrittenMoves(start: real, target: real, x: real, y: real)
    requires 0.0 <= x <= y <= 1.0
    ensures start <= target ==> Written(start, target, x) <= Written(start, target, y)
    ensures target <= start ==> Written(start, target, y) <= Written(start, target, x)
  {
    MixedMoves(start, target, x, y, y - x);
    if start <= target { RoundMonotone(Mixed(start, target, x), Mixed(start, target, y)); }
    if target <= start { RoundMonotone(Mixed(start, target, y), Mixed(start, target, x)); }
  }

  /** Exactly: every write of one number of a ramp lies between start and target if and only if the first write does and
      the rounded target does. */
  lemma RampBetweenIff(start: Look, target: Look, key: string, n: nat)
    requires key in RampKeys(start, target) && n > 0
    ensures var s, t := start.numbers[key], target.numbers[key];
            (forall step :: 1 <= step <= n ==> Between(s, RampWrite(start, target, step, n)[key], t))
            <==> Between(s, RampWrite(start, target, 1, n)[key], t) && Between(s, Round4(t), t)
  {
    hide Round4, Smooth;
    var s, t := start.numbers[key], target.numbers[key];
    LastWrite(start, target, key, n);
    if Between(s, RampWrite(start, target, 1, n)[key], t) && Between(s, Round4(t), t) {
      forall step | 1 <= step <= n ensures Between(s, RampWrite(start, target, step, n)[key], t) {
        Fractions(1, n);
        Fractions(step, n);
        Fractions(n, n);
        FractionsGrow(1, step, n);
        WrittenMoves(s, t, Fraction(1, n), Fraction(step, n));
        WrittenMoves(s, t, Fraction(step, n), 1.0);
      }
    }
  }

  lemma FractionsGrow(a: nat, b: nat, n: nat)
    requires a <= b && n > 0
    ensures Fraction(a, n) <= Fraction(b, n)
  {
  }

  /** An uncancelled ramp ends on the rounded target. */
  lemma LastWrite(start: Look, target: Look, key: string, n: nat)
    requires key in RampKeys(start, target) && n > 0
    ensures RampWrite(start, target, n, n)[key] == Round4(target.numbers[key])
  {
    Fractions(n, n);
    MixedEnd(start.numbers[key], target.numbers[key]);
  }

  lemma WrittenInLimit(limit: Limit, start: real, target: real, mix: real)
    requires GoodLimit(limit) && limit.low <= start <= limit.high && limit.low <= target <= limit.high
    requires 0.0 <= mix <= 1.0
    ensures limit.low <= Written(start, target, mix) <= limit.high
  {
    MixedBetween(start, target, mix);
    RoundOnGrid(limit.low);
    RoundOnGrid(limit.high);
    RoundMonotone(limit.low, Mixed(start, target, mix));
    RoundMonotone(Mixed(start, target, mix), limit.high);
  }

  /** Where a ramp can take one number: between the rounded ends, inside the limits, and onto the rounded target. */
  lemma RampStays(rules: Rules, start: Look, target: Look, key: string, n: nat, step: nat)
    requires GoodRules(rules) && InLimits(rules, start) && InLimits(rules, target)
    requires key in RampKeys(start, target) && n > 0 && 1 <= step <= n
    ensures var s, t, w := start.numbers[key], target.numbers[key], RampWrite(start, target, step, n)[key];
            && Between(Round4(s), w, Round4(t))
            && (OnGrid(s) && OnGrid(t) ==> Between(s, w, t))
            && (key in rules.limits ==> rules.limits[key].low <= w <= rules.limits[key].high)
            && (step == n ==> w == Round4(t))
  {
    var s, t, mix := start.numbers[key], target.numbers[key], Fraction(step, n);
    Fractions(step, n);
    WrittenBetween(s, t, mix);
    RoundOnGrid(s);
    RoundOnGrid(t);
    if key in rules.limits {
      WrittenInLimit(rules.limits[key], s, t, mix);
    }
    MixedEnd(s, t);
  }

  lemma RoundMoves(start: real, target: real, a: real, b: real, h: real)
    requires MovesTowards(start, target, a, b, h, 0.0)
    ensures MovesTowards(start, target, Round4(a), Round4(b), h, 0.0001)
  {
    RoundClose(a);
    RoundClose(b);
    if start <= target { RoundMonotone(a, b); }
    if target <= start { RoundMonotone(b, a); }
  }

  /** The writes move one way only, and none by more than 1.5 / n of the whole change, plus the rounding. */
  lemma RampMoves(start: Look, target: Look, key: string, n: nat, step: nat)
    requires key in RampKeys(start, target) && 1 <= step < n
    ensures MovesTowards(start.numbers[key], target.numbers[key],
                         RampWrite(start, target, step, n)[key], RampWrite(start, target, step + 1, n)[key],
                         Fraction(1, n), 0.0001)
  {
    var s, t, x, y := start.numbers[key], target.numbers[key], Fraction(step, n), Fraction(step + 1, n);
    Fractions(step, n);
    Fractions(step + 1, n);
    MixedMoves(s, t, x, y, Fraction(1, n));
    RoundMoves(s, t, Mixed(s, t, x), Mixed(s, t, y), Fraction(1, n));
  }

  /** The first write leaves the start by no more than that, and by no more than the rounding the wrong way; not at all
      the wrong way from a start with at most four decimals. */
  lemma RampStarts(start: Look, target: Look, key: string, n: nat)
    requires key in RampKeys(start, target) && n > 0
    ensures var s, t, w := start.numbers[key], target.numbers[key], RampWrite(start, target, 1, n)[key];
            && (s <= t ==> s - 0.00005 <= w <= s + 1.5 * Fraction(1, n) * (t - s) + 0.00005)
            && (t <= s ==> s + 0.00005 >= w >= s - 1.5 * Fraction(1, n) * (s - t) - 0.00005)
            && (OnGrid(s) ==> MovesTowards(s, t, s, w, Fraction(1, n), 0.00005))
  {
    hide Round4, Smooth, OnGrid;
    var s, t, h := start.numbers[key], target.numbers[key], Fraction(1, n);
    Fractions(1, n);
    MixedStart(s, t);
    MixedMoves(s, t, 0.0, h, h);
    RoundClose(Mixed(s, t, h));
    RoundOnGrid(s);
    if s <= t { RoundMonotone(s, Mixed(s, t, h)); }
    if t <= s { RoundMonotone(Mixed(s, t, h), s); }
  }

  lemma MixedStart(start: real, target: real)
    ensures Mixed(start, target, 0.0) == start
  {
    assert Smooth(0.0) == 0.0;
  }

  // ----- apply_look -----

  function ApplySteps(seconds: real): int
  {
    var whole := (seconds * 4.0).Floor;
    if whole > 4 then whole else 4
  }

  /** The switches and the LUT amount that differ from the look. */
  function ExtraNumbers(look: Look, target: Look): map<string, real>
  {
    map key | key in target.numbers && key == "lut_amount"
              && !(key in look.numbers && look.numbers[key] == target.numbers[key]) :: target.numbers[key]
  }

  function ExtraFlags(look: Look, target: Look): map<string, bool>
  {
    map key | key in target.flags && key in FLAG_KEYS
              && !(key in look.flags && look.flags[key] == target.flags[key]) :: target.flags[key]
  }

  /** `apply_look` (its ramp has no cancel event). */
  method ApplyLook(link: ConsoleLink, look: Look, target: Look, seconds: real) returns (changed: bool)
    modifies link
    ensures link.look == Applied(old(link.look), look, target, seconds)
    ensures changed <==>
              || (exists key :: key in target.numbers && !(key in look.numbers && look.numbers[key] == target.numbers[key]))
              || (exists key :: key in target.flags && !(key in look.flags && look.flags[key] == target.flags[key]))
  {
    changed :=
      (exists key :: key in target.numbers && !(key in look.numbers && look.numbers[key] == target.numbers[key]))
      || (exists key :: key in target.flags && !(key in look.flags && look.flags[key] == target.flags[key]));
    Ramp(link, look, target, ApplySteps(seconds), None);
    var numbers, flags := ExtraNumbers(look, target), ExtraFlags(look, target);
    ghost var ramped := link.look;
    if numbers != map[] || flags != map[] {
      link.SetExtras(numbers, flags);
    } else {
      assert ramped.numbers + numbers == ramped.numbers && ramped.flags + flags == ramped.flags;
    }
  }

  /** Every number a step may touch is a colour or the LUT amount. */
  ghost predicate KnownKeys(rules: Rules)
  {
    forall key :: key in rules.steps ==> key in COLOR_KEYS || key == "lut_amount"
  }

  /** The engine's look after `apply_look`, which starts the ramp from the look it is given. */
  function Applied(current: Look, look: Look, target: Look, seconds: real): Look
  {
    var n := ApplySteps(seconds);
    var ramped := Ramped(current, look, target, n, WriteCount(look, target, n, None));
    Look(ramped.numbers + ExtraNumbers(look, target), ramped.flags + ExtraFlags(look, target))
  }

  lemma AppliedFlags(look: Look, target: Look, seconds: real)
    requires look.flags.Keys == target.flags.Keys
    requires forall key :: key in look.flags && key !in FLAG_KEYS ==> target.flags[key] == look.flags[key]
    ensures Applied(look, look, target, seconds).flags == target.flags
  {
  }

  /** One number after `apply_look`: what the ramp last wrote, if it wrote it. */
  lemma AppliedNumber(look: Look, target: Look, seconds: real, key: string)
    requires key in look.numbers && key in target.numbers
    requires target.numbers[key] != look.numbers[key] ==> key in COLOR_KEYS || key == "lut_amount"
    ensures key in Applied(look, look, target, seconds).numbers
    ensures Applied(look, look, target, seconds).numbers[key]
         == if ColorDiffers(look, target) && key in COLOR_KEYS then Round4(target.numbers[key]) else target.numbers[key]
  {
    hide Round4, Written;
    var n := ApplySteps(seconds);
    if ColorDiffers(look, target) {
      if key in COLOR_KEYS {
        LutIsNoColor();
        LastWrite(look, target, key, n);
      }
    } else if key in COLOR_KEYS {
      assert key in RampKeys(look, target);
    }
  }

  lemma LutIsNoColor()
    ensures "lut_amount" !in COLOR_KEYS
  {
    assert |"lut_amount"| == 10 && |"brightness"| == 10 && "lut_amount"[0] == 'l' && "brightness"[0] == 'b';
    assert |"saturation"| == 10 && "saturation"[0] == 's';
  }

  /** A colour the target has with more than four decimals: `bounded` kept it from the look. */
  ghost predicate ColorsOnGrid(target: Look)
  {
    forall key :: key in target.numbers && key in COLOR_KEYS ==> Round4(target.numbers[key]) == target.numbers[key]
  }

  /** Exactly: applying a bounded proposal to the look in place ends on the bounded target if and only if no colour
      changes or every colour of the target has at most four decimals. */
  lemma ApplyEndsOnTargetIff(rules: Rules, proposal: Look, look: Look, seconds: real)
    requires rules.steps.Keys <= rules.limits.Keys && KnownKeys(rules)
    ensures var target := Bounded(rules, proposal, look);
            Applied(look, look, target, seconds) == target <==> !ColorDiffers(look, target) || ColorsOnGrid(target)
  {
    hide Round4, BoundedNumber, Applied, ColorDiffers;
    var target := Bounded(rules, proposal, look);
    var end := Applied(look, look, target, seconds);
    AppliedFlags(look, target, seconds);
    AppliedKeys(look, target, seconds);
    forall key | key in target.numbers
      ensures key in end.numbers && key in look.numbers
      ensures end.numbers[key]
           == if ColorDiffers(look, target) && key in COLOR_KEYS then Round4(target.numbers[key]) else target.numbers[key]
    {
      AppliedNumber(look, target, seconds, key);
    }
    if !ColorDiffers(look, target) || ColorsOnGrid(target) {
      assert end.numbers == target.numbers;
    }
  }

  lemma AppliedKeys(look: Look, target: Look, seconds: real)
    requires look.numbers.Keys == target.numbers.Keys
    ensures Applied(look, look, target, seconds).numbers.Keys == target.numbers.Keys
  {
    hide Written, ColorDiffers;
  }

  /** So it does for every look in the limits whose colours have at most four decimals, as every look that a ramp or
      `bounded` wrote has. */
  lemma ApplyEndsOnTarget(rules: Rules, proposal: Look, look: Look, seconds: real)
    requires GoodRules(rules) && KnownKeys(rules) && InLimits(rules, look) && ColorsOnGrid(look)
    ensures Applied(look, look, Bounded(rules, proposal, look), seconds) == Bounded(rules, proposal, look)
  {
    hide Round4, Applied, ColorDiffers;
    var target := Bounded(rules, proposal, look);
    forall key | key in target.numbers && key in COLOR_KEYS ensures Round4(target.numbers[key]) == target.numbers[key] {
      if key in rules.steps && key in proposal.numbers {
        BoundedNumberRange(rules.limits[key], rules.steps[key], look.numbers[key], proposal.numbers[key]);
        RoundOnGrid(target.numbers[key]);
      }
    }
    ApplyEndsOnTargetIff(rules, proposal, look, seconds);
  }

  /** The limits and steps in use. */
  const DIRECTOR_RULES := Rules(
    map["brightness" := Limit(-0.15, 0.2),
        "contrast" := Limit(-0.3, 0.4),
        "gamma" := Limit(-0.5, 0.6),
        "saturation" := Limit(-0.3, 0.35),
        "warmth" := Limit(-0.5, 0.5),
        "lut_amount" := Limit(0.0, 0.6)],
    map["brightness" := 0.08, "contrast" := 0.15, "gamma" := 0.2, "saturation" := 0.15, "warmth" := 0.25, "lut_amount" := 0.2])

  lemma Decimals(x: real, n: int)
    requires x == TenThousandths(n)
    ensures OnGrid(x)
  {
  }

  lemma DirectorRulesGood()
    ensures GoodRules(DIRECTOR_RULES) && KnownKeys(DIRECTOR_RULES)
  {
    Decimals(-0.5, -5000);
    Decimals(-0.3, -3000);
    Decimals(-0.15, -1500);
    Decimals(0.0, 0);
    Decimals(0.08, 800);
    Decimals(0.15, 1500);
    Decimals(0.2, 2000);
    Decimals(0.25, 2500);
    Decimals(0.35, 3500);
    Decimals(0.4, 4000);
    Decimals(0.5, 5000);
    Decimals(0.6, 6000);
  }

  // ----- Where a ramp leaves its range, and where it misses its target, under the rules in use -----

  lemma NearestOf(y: real, n: int)
    requires n as real - 0.5 < y < n as real + 0.5
    ensures Nearest(y) == n
  {
  }

  lemma Round4Of(x: real, n: int)
    requires n as real - 0.5 < x * 10000.0 < n as real + 0.5
    ensures Round4(x) == TenThousandths(n)
  {
    NearestOf(x * 10000.0, n);
  }

  /** From a brightness of 0.00004 to a proposed 0.0001, in the sixteen steps of `apply_look`: the first write is 0. */
  lemma FirstWriteEscapes()
    ensures var look, proposal := Look(map["brightness" := 0.00004], map[]), Look(map["brightness" := 0.0001], map[]);
            var target := Bounded(DIRECTOR_RULES, proposal, look);
            && InLimits(DIRECTOR_RULES, look) && ApplySteps(4.0) == 16 && "brightness" in RampKeys(look, target)
            && target.numbers["brightness"] == 0.0001
            && RampWrite(look, target, 1, 16)["brightness"] == 0.0
            && !Between(0.00004, RampWrite(look, target, 1, 16)["brightness"], 0.0001)
  {
    hide Round4;
    Round4Of(0.0001, 1);
    assert Fraction(1, 16) == 0.0625;
    assert Smooth(0.0625) == 0.01123046875;
    assert Mixed(0.00004, 0.0001, 0.0625) == 0.00004 + 0.00006 * 0.01123046875;
    Round4Of(Mixed(0.00004, 0.0001, 0.0625), 0);
  }

  /** A gamma of 0.12345678 that the proposal does not name is written as 0.1235 beside the brightness that it does. */
  lemma UnnamedColorMoves(seconds: real)
    ensures var look := Look(map["gamma" := 0.12345678, "brightness" := 0.0], map[]);
            var target := Bounded(DIRECTOR_RULES, Look(map["brightness" := 0.05], map[]), look);
            && InLimits(DIRECTOR_RULES, look) && "gamma" in target.numbers && target.numbers["gamma"] == 0.12345678
            && "gamma" in Applied(look, look, target, seconds).numbers
            && Applied(look, look, target, seconds).numbers["gamma"] == 0.1235
            && Applied(look, look, target, seconds) != target
  {
    hide Round4, Applied;
    var look := Look(map["gamma" := 0.12345678, "brightness" := 0.0], map[]);
    var target := Bounded(DIRECTOR_RULES, Look(map["brightness" := 0.05], map[]), look);
    assert "gamma"[0] == 'g' && "brightness"[0] == 'b';
    Round4Of(0.05, 500);
    Round4Of(0.12345678, 1235);
    assert target.numbers["brightness"] == 0.05;
    assert "brightness" in RampKeys(look, target);
    AppliedNumber(look, target, seconds, "gamma");
  }
}
