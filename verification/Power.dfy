/** Voltage and frequency sequencing of one voltage domain (`RCCE_power_management.c`): the domain master's requests,
    and what keeps the tiles' clock within what the voltage allows. */
module Power {
  import opened Wrappers

  const CLOCK := 1600
  const MIN_DIVIDER := 2
  const MAX_DIVIDER := 16
  const DEFAULT_LEVEL := 4
  const DEFAULT_DIVIDER := 3
  const CAPS: seq<int> := [460, 598, 644, 748, 875, 1024, 1198]

  type Divider = d: int | MIN_DIVIDER <= d <= MAX_DIVIDER witness 2

  function Clamp(divider: int): Divider {
    if divider > MAX_DIVIDER then MAX_DIVIDER else if divider < MIN_DIVIDER then MIN_DIVIDER else divider
  }

  // ---------------------------------------------------------------- voltage levels

  /** The first level from `k` on whose cap admits `mhz`. */
  function FirstLevel(mhz: int, k: nat): (r: nat)
    requires k < |CAPS| && mhz <= CAPS[|CAPS| - 1]
    ensures k <= r < |CAPS| && mhz <= CAPS[r]
    ensures forall i | k <= i < r :: CAPS[i] < mhz
    decreases |CAPS| - k
  {
    if CAPS[k] >= mhz then k else FirstLevel(mhz, k + 1)
  }

  function Level(d: Divider): nat {
    FirstLevel(CLOCK / d, 0)
  }

  /** The search loop of RC_voltage_level; for a divider in range it never runs past the table. */
  method VoltageLevel(d: Divider) returns (level: nat)
    ensures level == Level(d)
  {
    var mhz := CLOCK / d;
    level := 0;
    while CAPS[level] < mhz
      invariant level < |CAPS| && FirstLevel(mhz, 0) == FirstLevel(mhz, level)
      decreases |CAPS| - level
    {
      level := level + 1;
    }
  }

  /** The exact clock of a divider is within the cap of level `v`. */
  predicate Within(d: Divider, v: nat)
    requires v < |CAPS|
  {
    CLOCK <= CAPS[v] * d
  }

  /** Although the level is chosen from the truncated clock, it admits the exact one; and so does every higher
      level. */
  lemma LevelSuffices(d: Divider, v: nat)
    requires Level(d) <= v < |CAPS|
    ensures Within(d, v)
  {
    ClockTable(d);
  }

  lemma ClockTable(d: Divider)
    ensures Within(d, Level(d))
    ensures Level(d) == if d == 2 then 4 else if d == 3 then 1 else 0
  {
    if d == 2 {
      assert CLOCK / d == 800;
    } else if d == 3 {
      assert CLOCK / d == 533;
    } else {
      assert CLOCK / d <= 400;
    }
  }

  // ---------------------------------------------------------------- the requests, on values

  datatype Request = Request(oldLevel: nat, newLevel: nat, oldDivider: Divider, newDivider: Divider, released: bool)

  datatype Error = Success | MultipleRequests | BadDivider | NoActiveRequest | StaleRequest

  /** `level` and `divider` are what the library remembers; `tiles` is the divider the tiles run at. */
  datatype State = State(level: nat, divider: Divider, active: bool, tiles: Divider)

  const START := State(DEFAULT_LEVEL, DEFAULT_DIVIDER, false, DEFAULT_DIVIDER)

  /** RCCE_set_frequency_divider: it does not remember the new divider. */
  function SetDivider(s: State, wanted: int): (State, Error) {
    var d := Clamp(wanted);
    if s.active then (s, MultipleRequests)
    else if s.level < Level(d) then (s, BadDivider)
    else (s.(tiles := d), Success)
  }

  /** RCCE_iset_power: the request it hands out, and the tiles slowed down at once if the divider does not fall. */
  function ISet(s: State, wanted: int): (State, Option<Request>, Error) {
    if s.active then (s, None, MultipleRequests)
    else
      var d := Clamp(wanted);
      var r := Request(s.level, Level(d), s.divider, d, false);
      var t := if d >= s.divider then SetDivider(s, d).0.(divider := d) else s;
      (t.(active := true), Some(r), Success)
  }

  /** RCCE_wait_power. */
  function Wait(s: State, r: Request): (State, Request, Error) {
    if !s.active then (s, r, NoActiveRequest)
    else
      var t := s.(active := false);
      if r.released then (t, r, StaleRequest)
      else
        var u := t.(level := r.newLevel);
        var v := if r.newDivider < r.oldDivider then SetDivider(u, r.newDivider).0.(divider := r.newDivider) else u;
        (v, r.(released := true), Success)
  }

  // ---------------------------------------------------------------- every run of the domain master

  /** A program's calls; every wait is for the request handed out last. */
  datatype Call = CallISet(wanted: int) | CallWait | CallSetDivider(wanted: int)

  datatype Run = Run(s: State, latest: Option<Request>)

  function Step(x: Run, c: Call): Run {
    match c
    case CallISet(wanted) =>
      var (t, r, _) := ISet(x.s, wanted);
      Run(t, if r.Some? then r else x.latest)
    case CallWait =>
      if x.latest.None? then x
      else
        var (t, r, _) := Wait(x.s, x.latest.value);
        Run(t, Some(r))
    case CallSetDivider(wanted) => x.(s := SetDivider(x.s, wanted).0)
  }

  /** The clock of the tiles is within the cap of the present level, and of the one being approached. */
  ghost predicate Safe(x: Run) {
    && x.s.level < |CAPS| && Within(x.s.tiles, x.s.level)
    && (x.s.active ==> x.latest.Some? && x.latest.value.newLevel < |CAPS| && Within(x.s.tiles, x.latest.value.newLevel))
  }

  /** The level belongs to the remembered divider, save at the start, where it is higher than need be. */
  ghost predicate Settled(s: State) {
    s.level == Level(s.divider) || (s.level == DEFAULT_LEVEL && s.divider == DEFAULT_DIVIDER)
  }

  ghost predicate Inv(x: Run) {
    && x.s.level < |CAPS| && Level(x.s.tiles) <= x.s.level
    && if !x.s.active then Settled(x.s) else
         && x.latest.Some?
         && var r := x.latest.value;
            && !r.released && r.newLevel == Level(r.newDivider) && Level(x.s.tiles) <= r.newLevel
            && (if r.newDivider < r.oldDivider then r.oldDivider == x.s.divider else r.newDivider == x.s.divider)
  }

  lemma StepInv(x: Run, c: Call)
    requires Inv(x)
    ensures Inv(Step(x, c))
  {
    match c
    case CallISet(wanted) =>
      var d := Clamp(wanted);
      ClockTable(d);
      ClockTable(x.s.divider);
      ClockTable(x.s.tiles);
    case CallWait =>
    case CallSetDivider(wanted) =>
  }

  lemma InvSafe(x: Run)
    requires Inv(x)
    ensures Safe(x)
  {
    LevelSuffices(x.s.tiles, x.s.level);
    if x.s.active {
      LevelSuffices(x.s.tiles, x.latest.value.newLevel);
    }
  }

  function Steps(x: Run, calls: seq<Call>): Run
    decreases |calls|
  {
    if calls == [] then x else Steps(Step(x, calls[0]), calls[1..])
  }

  lemma {:induction false} StepsInv(x: Run, calls: seq<Call>)
    requires Inv(x)
    ensures Inv(Steps(x, calls))
    decreases |calls|
  {
    if calls != [] {
      StepInv(x, calls[0]);
      StepsInv(Step(x, calls[0]), calls[1..]);
    }
  }

  /** Whatever the domain master calls, its clock never outruns its voltage. */
  lemma ClockNeverOutrunsVoltage(calls: seq<Call>)
    ensures Safe(Steps(Run(START, None), calls))
  {
    StepsInv(Run(START, None), calls);
    InvSafe(Steps(Run(START, None), calls));
  }

  /** A request that is waited for takes effect: the tiles run at the divider asked for, or at the nearest there is, and
      the voltage is the lowest that admits it. */
  lemma RequestTakesEffect(x: Run, wanted: int)
    requires Inv(x) && !x.s.active
    ensures var y := Step(Step(x, CallISet(wanted)), CallWait).s;
            && !y.active
            && y.tiles == y.divider == (if 2 <= wanted <= 16 then wanted else if wanted > 16 then 16 else 2)
            && y.level == if y.tiles == 2 then 4 else if y.tiles == 3 then 1 else 0
  {
    var d := Clamp(wanted);
    ClockTable(d);
    ClockTable(x.s.divider);
  }

  /** Changing the divider alone: refused while a request is pending, and whenever the present voltage is too low; the
      divider is not remembered. */
  lemma DividerTakesEffect(x: Run, wanted: int)
    requires Inv(x)
    ensures var d := if 2 <= wanted <= 16 then wanted else if wanted > 16 then 16 else 2;
            Step(x, CallSetDivider(wanted)).s ==
            if x.s.active || (d == 2 && x.s.level < 4) || (d == 3 && x.s.level < 1) then x.s else x.s.(tiles := d)
  {
    ClockTable(Clamp(wanted));
  }

  // ---------------------------------------------------------------- the library's variables

  class Domain {
    var level: nat
    var divider: Divider
    var active: bool
    const tiles: array<Divider>

    ghost predicate Valid()
      reads this, tiles
    {
      tiles.Length == 4 && forall i | 0 <= i < 4 :: tiles[i] == tiles[0]
    }

    ghost function Value(): State
      requires Valid()
      reads this, tiles
    {
      State(level, divider, active, tiles[0])
    }

    constructor ()
      ensures Valid() && fresh(tiles) && Value() == START
    {
      level, divider, active := DEFAULT_LEVEL, DEFAULT_DIVIDER, false;
      tiles := new Divider[4](i => DEFAULT_DIVIDER);
    }

    method SetFrequencyDivider(wanted: int) returns (e: Error)
      requires Valid()
      modifies tiles
      ensures Valid() && (Value(), e) == SetDivider(old(Value()), wanted)
      ensures var d := if 2 <= wanted <= 16 then wanted else if wanted > 16 then 16 else 2;
              && e == (if active then MultipleRequests
                       else if (d == 2 && level < 4) || (d == 3 && level < 1) then BadDivider else Success)
              && forall i | 0 <= i < 4 :: tiles[i] == if e == Success then d else old(tiles[i])
    {
      ClockTable(Clamp(wanted));
      if active {
        return MultipleRequests;
      }
      var d := Clamp(wanted);
      var needed := VoltageLevel(d);
      if level < needed {
        return BadDivider;
      }
      for ue := 0 to 4
        invariant forall i | 0 <= i < ue :: tiles[i] == d
      {
        tiles[ue] := d;
      }
      e := Success;
    }

    method ISetPower(wanted: int) returns (r: Option<Request>, e: Error)
      requires Valid()
      modifies this, tiles
      ensures Valid() && (Value(), r, e) == ISet(old(Value()), wanted)
      ensures active && level == old(level) && e == if old(active) then MultipleRequests else Success
      ensures var d := if 2 <= wanted <= 16 then wanted else if wanted > 16 then 16 else 2;
              && r == (if old(active) then None else
                         Some(Request(level, if d == 2 then 4 else if d == 3 then 1 else 0, old(divider), d, false)))
              && divider == (if e == Success && d >= old(divider) then d else old(divider))
              && forall i | 0 <= i < 4 :: tiles[i] ==
                   if e == Success && d >= old(divider) && (d > 3 || level >= 4 || (d == 3 && level >= 1)) then d
                   else old(tiles[i])
    {
      ClockTable(Clamp(wanted));
      if active {
        return None, MultipleRequests;
      }
      var d := Clamp(wanted);
      var needed := VoltageLevel(d);
      r := Some(Request(level, needed, divider, d, false));
      if d >= divider {
        var ignored := SetFrequencyDivider(d);
        divider := d;
      }
      active := true;
      e := Success;
    }

    method WaitPower(r0: Request) returns (r: Request, e: Error)
      requires Valid()
      modifies this, tiles
      ensures Valid() && (Value(), r, e) == Wait(old(Value()), r0)
      ensures !active && e == if !old(active) then NoActiveRequest else if r0.released then StaleRequest else Success
      ensures r == if e == Success then r0.(released := true) else r0
      ensures level == if e == Success then r0.newLevel else old(level)
      ensures divider == if e == Success && r0.newDivider < r0.oldDivider then r0.newDivider else old(divider)
      ensures forall i | 0 <= i < 4 :: tiles[i] ==
                var d := r0.newDivider;
                if e == Success && d < r0.oldDivider && (d > 3 || level >= 4 || (d == 3 && level >= 1)) then d
                else old(tiles[i])
    {
      ClockTable(r0.newDivider);
      r := r0;
      if !active {
        return r, NoActiveRequest;
      }
      active := false;
      if r.released {
        return r, StaleRequest;
      }
      level := r.newLevel;
      if r.newDivider < r.oldDivider {
        var ignored := SetFrequencyDivider(r.newDivider);
        divider := r.newDivider;
      }
      r := r.(released := true);
      e := Success;
    }
  }
}
