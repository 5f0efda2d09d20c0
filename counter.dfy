/**
 * The animated statistics counters: `initCounters` reads the target from the element's
 * text the first time it scrolls into view, and each tick of `animateCounter` rewrites
 * the text with the running value and a `%` or `+` suffix. The running value `current`
 * is taken as given: how the interval accumulates it is not modelled.
 */
module Counter {

  import opened Optional
  import opened JsText

  /** `parseInt(text.replace(/\D/g, ''))`, with `None` for the `NaN` of a text without digits. */
  function ExtractTarget(text: string): (r: Option<nat>)
    ensures r.None? <==> NoDigits(text)
    ensures r.Some? ==> r.value == DecimalValue(DigitsOf(text))
  {
    ParseDigits(DigitsOf(text))
  }

  /** The digits of a numeral followed by digit-free text read back as the numeral's value. */
  lemma {:induction false} ExtractTargetOfNumeral(n: nat, suffix: string)
    requires NoDigits(suffix)
    ensures ExtractTarget(NatToString(n) + suffix) == Some(n)
  {
    DigitsOfConcat(NatToString(n), suffix);
    assert DigitsOf(suffix) == [];
    assert DigitsOf(NatToString(n) + suffix) == NatToString(n);
    DecimalValueOfNatToString(n);
  }

  /** `text.includes('%') ? '%' : '+'`. */
  function Suffix(text: string): string {
    if '%' in text then "%" else "+"
  }

  /** The interval stops on the tick whose running value reaches the target; with a
      `NaN` target the comparison is always false and it never stops. */
  predicate Stops(target: Option<nat>, current: real) {
    target.Some? && current >= target.value as real
  }

  /** The number shown by a tick: the target once reached, else `Math.floor(current)`,
      which is `NaN` when the target is. */
  function TickNumber(target: Option<nat>, current: real): (r: string)
    ensures r != [] && '%' !in r && '+' !in r
  {
    match target
    case None => "NaN"
    case Some(t) => if current >= t as real then NatToString(t) else IntToString(current.Floor)
  }

  /** The text one tick writes over `text`. */
  function TickText(text: string, target: Option<nat>, current: real): (r: string)
    ensures |r| > |Suffix(text)| && r[|r| - |Suffix(text)|..] == Suffix(text)
    ensures Suffix(r) == Suffix(text)
  {
    var n := TickNumber(target, current);
    assert '%' in n + Suffix(text) <==> Suffix(text) == "%";
    n + Suffix(text)
  }

  /** A tick never changes the suffix: the number it writes holds no `%`. */
  lemma SuffixIsStable(text: string, target: Option<nat>, current: real)
    ensures Suffix(TickText(text, target, current)) == Suffix(text)
  {
    var n := TickNumber(target, current);
    assert '%' !in n by {
      if target.Some? && current >= target.value as real {
        assert AllDigits(NatToString(target.value));
      }
    }
    assert '%' in n + Suffix(text) <==> Suffix(text) == "%";
  }

  /** The tick that reaches or passes the target shows exactly the target and stops. */
  lemma ReachingTickShowsTarget(text: string, target: nat, current: real)
    requires current >= target as real
    ensures TickText(text, Some(target), current) == NatToString(target) + Suffix(text)
    ensures Stops(Some(target), current)
  {
  }

  /** A tick short of the target shows a whole number below the target, and later ticks,
      whose running value is no smaller, show no smaller number. */
  lemma EarlyTickStaysBelowTarget(text: string, target: nat, current: real, later: real)
    requires 0.0 <= current <= later < target as real
    ensures 0 <= current.Floor <= later.Floor < target
    ensures TickText(text, Some(target), current) == NatToString(current.Floor) + Suffix(text)
    ensures !Stops(Some(target), current)
  {
  }

  /** A text without digits gets no target, and every tick then shows `NaN` and the interval
      runs on: the text is not left alone. */
  lemma DigitFreeTextShowsNaN(text: string, current: real)
    requires NoDigits(text)
    ensures ExtractTarget(text) == None
    ensures TickText(text, None, current) == "NaN" + Suffix(text)
    ensures !Stops(None, current)
  {
  }

  /** The text after the interval has ticked with the running values `currents`,
      up to and including the first tick that stops it. */
  function RunTicks(text: string, target: Option<nat>, currents: seq<real>): string
    decreases |currents|
  {
    if currents == [] then text
    else if Stops(target, currents[0]) then TickText(text, target, currents[0])
    else RunTicks(TickText(text, target, currents[0]), target, currents[1..])
  }

  /** However many ticks run, the suffix stays the one chosen from the initial text. */
  lemma {:induction false} SuffixStableAcrossTicks(text: string, target: Option<nat>, currents: seq<real>)
    ensures Suffix(RunTicks(text, target, currents)) == Suffix(text)
    decreases |currents|
  {
    if currents != [] {
      SuffixIsStable(text, target, currents[0]);
      if !Stops(target, currents[0]) {
        SuffixStableAcrossTicks(TickText(text, target, currents[0]), target, currents[1..]);
      }
    }
  }

  /** Once some running value reaches the target, the run ends showing the target with the
      initial text's suffix. */
  lemma {:induction false} RunLandsOnTarget(text: string, target: nat, currents: seq<real>, i: nat)
    requires i < |currents| && currents[i] >= target as real
    ensures RunTicks(text, Some(target), currents) == NatToString(target) + Suffix(text)
    decreases i
  {
    if Stops(Some(target), currents[0]) {
      ReachingTickShowsTarget(text, target, currents[0]);
    } else {
      var next := TickText(text, Some(target), currents[0]);
      SuffixIsStable(text, Some(target), currents[0]);
      RunLandsOnTarget(next, target, currents[1..], i - 1);
    }
  }

  /** The stat "150+" counts up to 150 and ends showing "150+". */
  lemma OneHundredFiftyPlus(currents: seq<real>, i: nat)
    requires i < |currents| && currents[i] >= 150.0
    ensures ExtractTarget("150+") == Some(150)
    ensures RunTicks("150+", Some(150), currents) == "150+"
  {
    assert NatToString(150) == "150";
    ExtractTargetOfNumeral(150, "+");
    assert NatToString(150) + "+" == "150+";
    RunLandsOnTarget("150+", 150, currents, i);
  }

  /** A `.stat-number` element: its text, its `counted` class and its running animation. */
  class StatCounter {
    var text: string
    var counted: bool
    var target: Option<nat>
    var running: bool

    /** An animation only runs on a counter that has been counted. */
    ghost predicate Valid()
      reads this
    {
      running ==> counted
    }

    constructor (initialText: string)
      ensures text == initialText && !counted && !running
      ensures Valid()
    {
      text := initialText;
      counted := false;
      target := None;
      running := false;
    }

    /** The intersection callback: the first time the element is seen, mark it counted, read
        the target from its current text and start the animation; afterwards do nothing. */
    method Intersect(isIntersecting: bool)
      requires Valid()
      modifies this
      ensures Valid()
      ensures isIntersecting && !old(counted) ==>
                counted && running && target == ExtractTarget(old(text)) && text == old(text)
      ensures !(isIntersecting && !old(counted)) ==> unchanged(this)
    {
      if isIntersecting && !counted {
        counted := true;
        target := ExtractTarget(text);
        running := true;
      }
    }

    /** One interval tick with running value `current`: rewrite the text and stop once the
        target is reached. A counter whose animation is not running is left alone. */
    method Tick(current: real)
      requires Valid()
      modifies this
      ensures Valid()
      ensures old(running) ==> text == TickText(old(text), target, current)
      ensures old(running) ==> running == !Stops(target, current)
      ensures old(running) ==> counted == old(counted) && target == old(target)
      ensures !old(running) ==> unchanged(this)
    {
      if running {
        if Stops(target, current) {
          text := NatToString(target.value) + Suffix(text);
          running := false;
        } else {
          text := TickNumber(target, current) + Suffix(text);
        }
      }
    }
  }

  /** The interval of `animateCounter` firing with the running values `currents` in turn, one
      `Tick` per firing: the counter's text is then the functional run `RunTicks`, and it is
      still running exactly when no running value has reached the target. */
  method Animate(c: StatCounter, currents: seq<real>)
    requires c.Valid() && c.running
    modifies c
    ensures c.Valid() && c.counted == old(c.counted) && c.target == old(c.target)
    ensures c.text == RunTicks(old(c.text), c.target, currents)
    ensures c.running <==> forall k :: 0 <= k < |currents| ==> !Stops(c.target, currents[k])
  {
    var i := 0;
    while i < |currents|
      invariant 0 <= i <= |currents|
      invariant c.Valid() && c.counted == old(c.counted) && c.target == old(c.target)
      invariant c.running ==> RunTicks(old(c.text), c.target, currents) == RunTicks(c.text, c.target, currents[i..])
      invariant !c.running ==> c.text == RunTicks(old(c.text), c.target, currents)
      invariant c.running <==> forall k :: 0 <= k < i ==> !Stops(c.target, currents[k])
    {
      assert currents[i..][0] == currents[i] && currents[i..][1..] == currents[i + 1..];
      c.Tick(currents[i]);
      i := i + 1;
    }
    assert currents[i..] == [];
  }
}
