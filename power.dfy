/**
 * The power-sequencing side of the firmware: the configuration words kept in the
 * emulated EEPROM, the battery-voltage formula, the five-state sequencer that drives
 * the router and DC-DC enables, and the configuration load at boot.
 */
module PowerManager {
  import opened Common
  import opened FlashEeprom

  const EE_VERSION: u32 := 1
  /** The largest 12-bit ADC reading. */
  const ADC_MAX: u32 := 4095

  // ---------------------------------------------------------------------------
  // Configuration (ConfigID, config_defaults, getConfigValue, setConfigDefaults)

  const CONFIG_COUNT: nat := 11

  /** A ConfigID below CONFIG_COUNT; it is also the word's offset in the EEPROM storage. */
  type ConfigId = i: nat | i < CONFIG_COUNT

  const CONFIG_ADC_VOLT_PULLUP: ConfigId := 0    // kOhm
  const CONFIG_ADC_VOLT_PULLDOWN: ConfigId := 1  // kOhm
  const CONFIG_ADC_VREF: ConfigId := 2           // mV
  const CONFIG_VOLT_UVLO: ConfigId := 3          // mV
  const CONFIG_VOLT_WAKEUP: ConfigId := 4        // mV
  const CONFIG_TIME_WAKEUP: ConfigId := 5        // ticks (seconds)
  const CONFIG_TIME_STARTING: ConfigId := 6
  const CONFIG_TIME_SHUTDOWN: ConfigId := 7
  const CONFIG_TIME_ENTER_SLEEP: ConfigId := 8
  const CONFIG_TIMEOUT_WDT: ConfigId := 9
  const CONFIG_TIMEOUT_UVLO: ConfigId := 10

  const CONFIG_DEFAULTS: seq<u32> := [200, 20, 3330, 11800, 13000, 2, 30, 30, 10, 60, 10]

  /**
   * getConfigValue: the stored word. The source falls back to the default when the
   * store refuses the offset, which it never does for a ConfigId: CONFIG_COUNT is
   * below the storage size.
   */
  function GetConfigValue(ee: FlashEE, id: ConfigId): (v: u32)
    reads ee, ee.buf
    requires ee.Valid()
    ensures v == ee.Staged().storage[id]
  {
    ee.Get(id as u32).value
  }

  /** The whole configuration as getConfigValue reports it, indexed by ConfigId. */
  function ConfigOf(ee: FlashEE): (c: seq<u32>)
    reads ee, ee.buf
    requires ee.Valid()
    ensures |c| == CONFIG_COUNT
    ensures forall id: ConfigId :: c[id] == GetConfigValue(ee, id)
  {
    ee.Staged().storage[..CONFIG_COUNT]
  }

  /**
   * setConfigDefaults: writes every default into its staging slot; the flags, the
   * version, the checksum and the storage past the configuration keep their words.
   */
  method SetConfigDefaults(ee: FlashEE)
    requires ee.Valid()
    modifies ee.buf
    ensures ee.Valid()
    ensures ee.buf[..] == old(ee.buf[..])[..STORAGE_AT] + CONFIG_DEFAULTS + old(ee.buf[..])[STORAGE_AT + CONFIG_COUNT..]
    ensures ConfigOf(ee) == CONFIG_DEFAULTS
  {
    ghost var before := ee.buf[..];
    var i := 0;
    while i < CONFIG_COUNT
      invariant 0 <= i <= CONFIG_COUNT
      invariant ee.buf[..] == before[..STORAGE_AT] + CONFIG_DEFAULTS[..i] + before[STORAGE_AT + i..]
    {
      DefaultsStep(before, i);
      var ok := ee.Set(i as u32, CONFIG_DEFAULTS[i]);
      i := i + 1;
    }
    DefaultsLaidOut(before);
  }

  /** Writing default `i` extends the run of defaults laid over `before` by one word. */
  lemma DefaultsStep(before: seq<u32>, i: nat)
    requires |before| == PAGE_WORDS && i < CONFIG_COUNT
    ensures (before[..STORAGE_AT] + CONFIG_DEFAULTS[..i] + before[STORAGE_AT + i..])[STORAGE_AT + i := CONFIG_DEFAULTS[i]]
         == before[..STORAGE_AT] + CONFIG_DEFAULTS[..i + 1] + before[STORAGE_AT + i + 1..]
  {
    assert CONFIG_DEFAULTS[..i + 1] == CONFIG_DEFAULTS[..i] + [CONFIG_DEFAULTS[i]];
  }

  /** With all defaults laid over a page, its record's first CONFIG_COUNT storage words are the defaults. */
  lemma DefaultsLaidOut(before: seq<u32>)
    requires |before| == PAGE_WORDS
    ensures var w := before[..STORAGE_AT] + CONFIG_DEFAULTS[..CONFIG_COUNT] + before[STORAGE_AT + CONFIG_COUNT..];
      |w| == PAGE_WORDS && Decode(w).storage[..CONFIG_COUNT] == CONFIG_DEFAULTS
  {
    assert CONFIG_DEFAULTS[..CONFIG_COUNT] == CONFIG_DEFAULTS;
    var w := before[..STORAGE_AT] + CONFIG_DEFAULTS + before[STORAGE_AT + CONFIG_COUNT..];
    assert forall k :: 0 <= k < CONFIG_COUNT ==> w[STORAGE_AT + k] == CONFIG_DEFAULTS[k];
    assert w[STORAGE_AT..END_FLAG_AT][..CONFIG_COUNT] == CONFIG_DEFAULTS;
  }

  // ---------------------------------------------------------------------------
  // Battery voltage (getVoltage)

  /**
   * The divider formula in millivolts, evaluated left to right in uint32_t:
   * vref * adc / 4095 * (pullup + pulldown) / pulldown, each product wrapping and
   * each quotient truncated.
   */
  function Voltage(adc: u32, pullup: u32, pulldown: u32, vref: u32): u32
    requires pulldown != 0
  {
    Mul32(Mul32(vref, adc) / ADC_MAX, Add32(pullup, pulldown)) / pulldown
  }

  /** The voltage for ADC reading `adc` under configuration `cfg`. */
  function ReadVoltage(cfg: seq<u32>, adc: u32): u32
    requires |cfg| == CONFIG_COUNT && cfg[CONFIG_ADC_VOLT_PULLDOWN] != 0
  {
    Voltage(adc, cfg[CONFIG_ADC_VOLT_PULLUP], cfg[CONFIG_ADC_VOLT_PULLDOWN], cfg[CONFIG_ADC_VREF])
  }

  /** getVoltage: the formula over the configuration words read from the store. */
  function GetVoltage(ee: FlashEE, adc: u32): (v: u32)
    reads ee, ee.buf
    requires ee.Valid() && GetConfigValue(ee, CONFIG_ADC_VOLT_PULLDOWN) != 0
    ensures v == ReadVoltage(ConfigOf(ee), adc)
  {
    Voltage(adc, GetConfigValue(ee, CONFIG_ADC_VOLT_PULLUP), GetConfigValue(ee, CONFIG_ADC_VOLT_PULLDOWN),
            GetConfigValue(ee, CONFIG_ADC_VREF))
  }

  /** When neither product reaches 2^32 the word formula is the integer formula. */
  lemma VoltageNoWrap(adc: u32, pullup: u32, pulldown: u32, vref: u32)
    requires pulldown != 0
    requires vref as int * adc as int < WORD_MOD
    requires pullup as int + pulldown as int < WORD_MOD
    requires (vref as int * adc as int / 4095) * (pullup as int + pulldown as int) < WORD_MOD
    ensures Voltage(adc, pullup, pulldown, vref) as int
         == (vref as int * adc as int / 4095) * (pullup as int + pulldown as int) / pulldown as int
  {
    Mul32NoWrap(vref, adc);
    var q := Mul32(vref, adc) / ADC_MAX;
    var sum := Add32(pullup, pulldown);
    assert sum as int == pullup as int + pulldown as int;
    Mul32NoWrap(q, sum);
  }

  lemma Mul32NoWrap(a: u32, b: u32)
    requires a as int * b as int < WORD_MOD
    ensures Mul32(a, b) as int == a as int * b as int
  {
  }

  /**
   * Under the default divider (200k over 20k, 3330 mV reference) a 12-bit reading never
   * wraps: the result is 11 times the pin voltage in mV, at most 36630 mV.
   */
  lemma DefaultVoltage(adc: u32)
    requires adc <= ADC_MAX
    ensures Voltage(adc, 200, 20, 3330) as int == (3330 * adc as int / 4095) * 11
    ensures Voltage(adc, 200, 20, 3330) <= 36630
  {
    var q := 3330 * adc as int / 4095;
    DivMono(3330 * adc as int, 3330 * 4095, 4095);
    assert q <= 3330;
    VoltageNoWrap(adc, 200, 20, 3330);
    assert q * 220 == (q * 11) * 20;
  }

  /** Under the default divider the voltage never decreases as the reading grows. */
  lemma DefaultVoltageMonotone(a: u32, b: u32)
    requires a <= b <= ADC_MAX
    ensures Voltage(a, 200, 20, 3330) <= Voltage(b, 200, 20, 3330)
  {
    DefaultVoltage(a);
    DefaultVoltage(b);
    DivMono(3330 * a as int, 3330 * b as int, 4095);
  }

  lemma DivMono(x: int, y: int, d: int)
    requires 0 <= x <= y && d > 0
    ensures x / d <= y / d
  {
    var qx, qy := x / d, y / d;
    assert qx * d + x % d == x && qy * d + y % d == y;
    if qx > qy {
      MulMono(qy + 1, qx, d);
    }
  }

  lemma MulMono(a: int, b: int, d: int)
    requires a <= b && d > 0
    ensures a * d <= b * d
  {
    assert b * d - a * d == (b - a) * d;
  }

  // ---------------------------------------------------------------------------
  // System states (SystemState, getSystemStateString)

  datatype SystemState = Standby | Starting | Running | ShuttingDown | Restarting

  /** getSystemStateString: the state's name; the "UNKNOWN" fallback is never reached. */
  function SystemStateString(s: SystemState): (r: string)
    ensures r != "UNKNOWN"
    ensures |r| >= 7
  {
    match s
    case Standby => "STANDBY"
    case Starting => "STARTING"
    case Running => "RUNNING"
    case ShuttingDown => "SHUTTING_DOWN"
    case Restarting => "RESTARTING"
  }

  /** Distinct states print distinct names. */
  lemma SystemStateStringInjective(s: SystemState, t: SystemState)
    ensures SystemStateString(s) == SystemStateString(t) ==> s == t
  {
  }

  // ---------------------------------------------------------------------------
  // The sequencer as values (setSystemState, SystemStateLoop)

  /**
   * The sequencer's globals: the state, the three tick counters, the levels last
   * written to the router and DC-DC enables, how many shutdown notices were pulsed,
   * how many times the router was power-cycled, and whether sleep was requested.
   */
  datatype Machine = Machine(state: SystemState, timeCount: u32, uvloCount: u32, wdtCount: u32,
                             enRouter: bool, enDc: bool, notices: nat, routerCycles: nat,
                             sleepRequested: bool)

  /** What one tick samples: the wake pin, the ADC and the watchdog-reset button (LOW = pressed). */
  datatype Reading = Reading(awake: bool, adc: u32, buttonLow: bool)

  /** The power-on state: STANDBY, counters zero, both enables driven low. */
  const BOOT: Machine := Machine(Standby, 0, 0, 0, false, false, 0, 0, false)

  /** setSystemState: enter `s`, resetting the counters that state starts from. */
  function Enter(m: Machine, s: SystemState): (r: Machine)
    ensures r.state == s && r.timeCount == 0
    ensures s == Running ==> r.wdtCount == 0 && r.uvloCount == 0
    ensures s == Standby ==> r.uvloCount == 0
    ensures s == Starting || s == Restarting ==> r.enRouter
    ensures s == Starting ==> r.enDc
    ensures r.notices == m.notices + (if s == ShuttingDown then 1 else 0)
    ensures r.routerCycles == m.routerCycles + (if s == Restarting then 1 else 0)
    ensures r.sleepRequested == m.sleepRequested
  {
    match s
    case Starting => m.(state := s, timeCount := 0, enRouter := true, enDc := true)
    case Running => m.(state := s, wdtCount := 0, uvloCount := 0, timeCount := 0)
    case ShuttingDown => m.(state := s, notices := m.notices + 1, timeCount := 0)
    case Restarting => m.(state := s, enRouter := true, routerCycles := m.routerCycles + 1, timeCount := 0)
    case Standby => m.(state := s, timeCount := 0, uvloCount := 0)
  }

  /** The states that SystemStateLoop reads the battery voltage in. */
  predicate ReadsVoltage(s: SystemState, awake: bool)
  {
    s == Standby || (s == Running && !awake)
  }

  /** The state changes one tick can make. */
  predicate Successor(s: SystemState, t: SystemState)
  {
    s == t ||
    match s
    case Starting => t == Running
    case Restarting => t == Running
    case Running => t == ShuttingDown || t == Restarting
    case ShuttingDown => t == Standby
    case Standby => t == Starting
  }

  /** The watchdog half of a RUNNING tick: count up unless the button is held, restart past the timeout. */
  function WatchdogTick(m: Machine, cfg: seq<u32>, buttonLow: bool): (r: Machine)
    requires |cfg| == CONFIG_COUNT
  {
    var w := if buttonLow then 0 else Inc32(m.wdtCount);
    if w > cfg[CONFIG_TIMEOUT_WDT] then Enter(m.(wdtCount := w), Restarting) else m.(wdtCount := w)
  }

  /** SystemStateLoop: one tick of the sequencer under configuration `cfg`. */
  function Tick(m: Machine, cfg: seq<u32>, input: Reading): (r: Machine)
    requires |cfg| == CONFIG_COUNT
    requires ReadsVoltage(m.state, input.awake) ==> cfg[CONFIG_ADC_VOLT_PULLDOWN] != 0
    ensures Successor(m.state, r.state)
    ensures m.state != Standby && r.state == Standby ==> !r.enRouter && !r.enDc
    ensures r.state == Starting && m.state != Starting ==> r.enRouter && r.enDc
    ensures r.notices == m.notices + (if r.state == ShuttingDown && m.state != ShuttingDown then 1 else 0)
    ensures r.sleepRequested != m.sleepRequested ==> m.state == Standby && r.state == Standby
    ensures r.state == ShuttingDown && m.state == Running ==>
              !input.awake && ReadVoltage(cfg, input.adc) < cfg[CONFIG_VOLT_UVLO]
  {
    match m.state
    case Starting => StartingTick(m, cfg)
    case Restarting => StartingTick(m, cfg)
    case Running => RunningTick(m, cfg, input)
    case ShuttingDown => ShuttingDownTick(m, cfg)
    case Standby => StandbyTick(m, cfg, input)
  }

  /** A STARTING or RESTARTING tick: count up, and run once the count reaches TIME_STARTING. */
  function StartingTick(m: Machine, cfg: seq<u32>): (r: Machine)
    requires |cfg| == CONFIG_COUNT && (m.state == Starting || m.state == Restarting)
    ensures r.state == m.state || r.state == Running
    ensures r.enRouter == m.enRouter && r.enDc == m.enDc
    ensures r.notices == m.notices && r.sleepRequested == m.sleepRequested
  {
    var t := Inc32(m.timeCount);
    if t >= cfg[CONFIG_TIME_STARTING] then Enter(m.(timeCount := t), Running) else m.(timeCount := t)
  }

  /**
   * A RUNNING tick. The under-voltage check comes first and, when it shuts down, the
   * watchdog is not looked at; the battery is sampled only while the wake pin is inactive.
   */
  function RunningTick(m: Machine, cfg: seq<u32>, input: Reading): (r: Machine)
    requires |cfg| == CONFIG_COUNT && m.state == Running
    requires !input.awake ==> cfg[CONFIG_ADC_VOLT_PULLDOWN] != 0
    ensures r.state == Running || r.state == ShuttingDown || r.state == Restarting
    ensures r.enRouter == (m.enRouter || r.state == Restarting) && r.enDc == m.enDc
    ensures r.notices == m.notices + (if r.state == ShuttingDown then 1 else 0)
    ensures r.sleepRequested == m.sleepRequested
    ensures r.state == ShuttingDown ==> !input.awake && ReadVoltage(cfg, input.adc) < cfg[CONFIG_VOLT_UVLO]
  {
    if !input.awake && ReadVoltage(cfg, input.adc) < cfg[CONFIG_VOLT_UVLO] then
      var u := Inc32(m.uvloCount);
      if u > cfg[CONFIG_TIMEOUT_UVLO] then Enter(m.(uvloCount := u), ShuttingDown)
      else WatchdogTick(m.(uvloCount := u), cfg, input.buttonLow)
    else WatchdogTick(m.(uvloCount := 0), cfg, input.buttonLow)
  }

  /** A SHUTTING_DOWN tick: past TIME_SHUTDOWN both enables go low and STANDBY begins. */
  function ShuttingDownTick(m: Machine, cfg: seq<u32>): (r: Machine)
    requires |cfg| == CONFIG_COUNT && m.state == ShuttingDown
    ensures r.state == ShuttingDown || r.state == Standby
    ensures r.state == Standby ==> !r.enRouter && !r.enDc
    ensures r.state == ShuttingDown ==> r.enRouter == m.enRouter && r.enDc == m.enDc
    ensures r.notices == m.notices && r.sleepRequested == m.sleepRequested
  {
    var t := Inc32(m.timeCount);
    if t > cfg[CONFIG_TIME_SHUTDOWN] then Enter(m.(timeCount := t, enRouter := false, enDc := false), Standby)
    else m.(timeCount := t)
  }

  /** A STANDBY tick: count towards wake-up while woken or charged, otherwise towards sleep. */
  function StandbyTick(m: Machine, cfg: seq<u32>, input: Reading): (r: Machine)
    requires |cfg| == CONFIG_COUNT && m.state == Standby && cfg[CONFIG_ADC_VOLT_PULLDOWN] != 0
    ensures r.state == Standby || r.state == Starting
    ensures r.state == Starting ==> r.enRouter && r.enDc
    ensures r.state == Standby ==> r.enRouter == m.enRouter && r.enDc == m.enDc
    ensures r.notices == m.notices
    ensures r.sleepRequested != m.sleepRequested ==> r.state == Standby
  {
    if input.awake || ReadVoltage(cfg, input.adc) >= cfg[CONFIG_VOLT_WAKEUP] then
      var t := Inc32(m.timeCount);
      var m1 := m.(timeCount := t, uvloCount := 0);
      if t > cfg[CONFIG_TIME_WAKEUP] then Enter(m1, Starting) else m1
    else
      var u := Inc32(m.uvloCount);
      m.(timeCount := 0, uvloCount := u, sleepRequested := m.sleepRequested || u > cfg[CONFIG_TIME_ENTER_SLEEP])
  }

  /** The enables are high exactly outside STANDBY. */
  predicate Powered(m: Machine)
  {
    m.enRouter == (m.state != Standby) && m.enDc == (m.state != Standby)
  }

  /** The router and DC-DC supplies are on in every state but STANDBY, from power-on on. */
  lemma TickKeepsPowered(m: Machine, cfg: seq<u32>, input: Reading)
    requires |cfg| == CONFIG_COUNT
    requires ReadsVoltage(m.state, input.awake) ==> cfg[CONFIG_ADC_VOLT_PULLDOWN] != 0
    requires Powered(m)
    ensures Powered(Tick(m, cfg, input))
  {
  }

  /** `ins` ticks in a row. */
  ghost function Run(m: Machine, cfg: seq<u32>, ins: seq<Reading>): Machine
    requires |cfg| == CONFIG_COUNT && cfg[CONFIG_ADC_VOLT_PULLDOWN] != 0
    decreases |ins|
  {
    if ins == [] then m else Run(Tick(m, cfg, ins[0]), cfg, ins[1..])
  }

  /**
   * STARTING and RESTARTING last max(1, TIME_STARTING - timeCount) ticks (the count is
   * incremented before the non-strict comparison), whatever is sampled meanwhile, and
   * then RUNNING begins with all counters zero. The runs considered stop at the tick
   * that leaves: at most TIME_STARTING - timeCount ticks, or a single one.
   */
  lemma {:induction false} StartupReachesRunning(m: Machine, cfg: seq<u32>, ins: seq<Reading>)
    requires |cfg| == CONFIG_COUNT && cfg[CONFIG_ADC_VOLT_PULLDOWN] != 0
    requires m.state == Starting || m.state == Restarting
    requires m.timeCount as int + 1 < WORD_MOD
    requires m.timeCount as int + |ins| <= cfg[CONFIG_TIME_STARTING] as int || |ins| <= 1
    ensures var r := Run(m, cfg, ins);
      if |ins| > 0 && m.timeCount as int + |ins| >= cfg[CONFIG_TIME_STARTING] as int
      then r.state == Running && r.timeCount == 0 && r.uvloCount == 0 && r.wdtCount == 0
      else r.state == m.state && r.timeCount as int == m.timeCount as int + |ins|
    decreases |ins|
  {
    if |ins| > 0 {
      var m1 := Tick(m, cfg, ins[0]);
      assert Inc32(m.timeCount) as int == m.timeCount as int + 1;
      if m.timeCount as int + 1 < cfg[CONFIG_TIME_STARTING] as int {
        StartupReachesRunning(m1, cfg, ins[1..]);
      } else {
        assert ins[1..] == [];
      }
    }
  }

  /**
   * SHUTTING_DOWN lasts TIME_SHUTDOWN + 1 ticks and then drops both enables and
   * returns to STANDBY.
   */
  lemma {:induction false} ShutdownReachesStandby(m: Machine, cfg: seq<u32>, ins: seq<Reading>)
    requires |cfg| == CONFIG_COUNT && cfg[CONFIG_ADC_VOLT_PULLDOWN] != 0
    requires m.state == ShuttingDown
    requires m.timeCount as int + |ins| <= cfg[CONFIG_TIME_SHUTDOWN] as int + 1 < WORD_MOD
    ensures var r := Run(m, cfg, ins);
      if |ins| > 0 && m.timeCount as int + |ins| == cfg[CONFIG_TIME_SHUTDOWN] as int + 1
      then r.state == Standby && !r.enRouter && !r.enDc
      else r.state == ShuttingDown && r.timeCount as int == m.timeCount as int + |ins|
    decreases |ins|
  {
    if |ins| > 0 {
      var m1 := Tick(m, cfg, ins[0]);
      assert Inc32(m.timeCount) as int == m.timeCount as int + 1;
      if m.timeCount as int + 1 <= cfg[CONFIG_TIME_SHUTDOWN] as int {
        ShutdownReachesStandby(m1, cfg, ins[1..]);
      } else {
        assert ins[1..] == [];
      }
    }
  }

  /** Every sample of `ins` is a low battery with the wake pin inactive and the watchdog fed. */
  ghost predicate LowBatteryFed(cfg: seq<u32>, ins: seq<Reading>)
    requires |cfg| == CONFIG_COUNT && cfg[CONFIG_ADC_VOLT_PULLDOWN] != 0
  {
    forall i :: 0 <= i < |ins| ==>
      !ins[i].awake && ins[i].buttonLow && ReadVoltage(cfg, ins[i].adc) < cfg[CONFIG_VOLT_UVLO]
  }

  /**
   * Under-voltage lockout: while the battery stays low (and the watchdog is fed) RUNNING
   * counts the low samples and shuts down on the one that makes the count exceed
   * TIMEOUT_UVLO, not before.
   */
  lemma {:induction false} UnderVoltageShutsDown(m: Machine, cfg: seq<u32>, ins: seq<Reading>)
    requires |cfg| == CONFIG_COUNT && cfg[CONFIG_ADC_VOLT_PULLDOWN] != 0
    requires m.state == Running && LowBatteryFed(cfg, ins)
    requires m.uvloCount as int + |ins| <= cfg[CONFIG_TIMEOUT_UVLO] as int + 1 < WORD_MOD
    ensures var r := Run(m, cfg, ins);
      if |ins| > 0 && m.uvloCount as int + |ins| == cfg[CONFIG_TIMEOUT_UVLO] as int + 1
      then r.state == ShuttingDown && r.notices == m.notices + 1
      else r.state == Running && r.uvloCount as int == m.uvloCount as int + |ins|
    decreases |ins|
  {
    if |ins| > 0 {
      var m1 := Tick(m, cfg, ins[0]);
      assert Inc32(m.uvloCount) as int == m.uvloCount as int + 1;
      if m.uvloCount as int + 1 <= cfg[CONFIG_TIMEOUT_UVLO] as int {
        assert m1.state == Running;
        assert LowBatteryFed(cfg, ins[1..]) by {
          forall i | 0 <= i < |ins| - 1 ensures ins[1..][i] == ins[i + 1] { }
        }
        UnderVoltageShutsDown(m1, cfg, ins[1..]);
      } else {
        assert ins[1..] == [];
      }
    }
  }

  /**
   * Every sample of `ins` leaves the under-voltage count alone (the wake pin active or the
   * battery at or above VOLT_UVLO) and has the watchdog-reset button released.
   */
  ghost predicate AwakeUnfed(cfg: seq<u32>, ins: seq<Reading>)
    requires |cfg| == CONFIG_COUNT && cfg[CONFIG_ADC_VOLT_PULLDOWN] != 0
  {
    forall i :: 0 <= i < |ins| ==>
      (ins[i].awake || ReadVoltage(cfg, ins[i].adc) >= cfg[CONFIG_VOLT_UVLO]) && !ins[i].buttonLow
  }

  /**
   * Watchdog: when neither the under-voltage check nor the button interferes, RUNNING power-cycles the router on the
   * tick that makes the count exceed TIMEOUT_WDT, not before.
   */
  lemma {:induction false} WatchdogRestarts(m: Machine, cfg: seq<u32>, ins: seq<Reading>)
    requires |cfg| == CONFIG_COUNT && cfg[CONFIG_ADC_VOLT_PULLDOWN] != 0
    requires m.state == Running && AwakeUnfed(cfg, ins)
    requires m.wdtCount as int + |ins| <= cfg[CONFIG_TIMEOUT_WDT] as int + 1 < WORD_MOD
    ensures var r := Run(m, cfg, ins);
      if |ins| > 0 && m.wdtCount as int + |ins| == cfg[CONFIG_TIMEOUT_WDT] as int + 1
      then r.state == Restarting && r.routerCycles == m.routerCycles + 1
      else r.state == Running && r.wdtCount as int == m.wdtCount as int + |ins|
    decreases |ins|
  {
    if |ins| > 0 {
      var m1 := Tick(m, cfg, ins[0]);
      assert Inc32(m.wdtCount) as int == m.wdtCount as int + 1;
      if m.wdtCount as int + 1 <= cfg[CONFIG_TIMEOUT_WDT] as int {
        assert m1.state == Running;
        assert AwakeUnfed(cfg, ins[1..]) by {
          forall i | 0 <= i < |ins| - 1 ensures ins[1..][i] == ins[i + 1] { }
        }
        WatchdogRestarts(m1, cfg, ins[1..]);
      } else {
        assert ins[1..] == [];
      }
    }
  }

  /** Every sample of `ins` has the wake pin active or the battery at or above VOLT_WAKEUP. */
  ghost predicate AllAwake(cfg: seq<u32>, ins: seq<Reading>)
    requires |cfg| == CONFIG_COUNT && cfg[CONFIG_ADC_VOLT_PULLDOWN] != 0
  {
    forall i :: 0 <= i < |ins| ==> ins[i].awake || ReadVoltage(cfg, ins[i].adc) >= cfg[CONFIG_VOLT_WAKEUP]
  }

  /**
   * Wake-up: with the wake pin held or the battery charged, STANDBY switches both supplies on and starts
   * on the tick that makes the count exceed TIME_WAKEUP, not before.
   */
  lemma {:induction false} WakeUpStarts(m: Machine, cfg: seq<u32>, ins: seq<Reading>)
    requires |cfg| == CONFIG_COUNT && cfg[CONFIG_ADC_VOLT_PULLDOWN] != 0
    requires m.state == Standby && AllAwake(cfg, ins)
    requires m.timeCount as int + |ins| <= cfg[CONFIG_TIME_WAKEUP] as int + 1 < WORD_MOD
    ensures var r := Run(m, cfg, ins);
      if |ins| > 0 && m.timeCount as int + |ins| == cfg[CONFIG_TIME_WAKEUP] as int + 1
      then r.state == Starting && r.enRouter && r.enDc
      else r.state == Standby && r.timeCount as int == m.timeCount as int + |ins|
    decreases |ins|
  {
    if |ins| > 0 {
      var m1 := Tick(m, cfg, ins[0]);
      assert Inc32(m.timeCount) as int == m.timeCount as int + 1;
      if m.timeCount as int + 1 <= cfg[CONFIG_TIME_WAKEUP] as int {
        assert m1.state == Standby;
        assert AllAwake(cfg, ins[1..]) by {
          forall i | 0 <= i < |ins| - 1 ensures ins[1..][i] == ins[i + 1] { }
        }
        WakeUpStarts(m1, cfg, ins[1..]);
      } else {
        assert ins[1..] == [];
      }
    }
  }

  /** Every sample of `ins` is below the wake-up voltage with the wake pin inactive. */
  ghost predicate AllAsleep(cfg: seq<u32>, ins: seq<Reading>)
    requires |cfg| == CONFIG_COUNT && cfg[CONFIG_ADC_VOLT_PULLDOWN] != 0
  {
    forall i :: 0 <= i < |ins| ==> !ins[i].awake && ReadVoltage(cfg, ins[i].adc) < cfg[CONFIG_VOLT_WAKEUP]
  }

  /**
   * Sleep: while nothing wakes it, STANDBY stays put with the supplies as they were and
   * requests sleep once the count exceeds TIME_ENTER_SLEEP.
   */
  lemma {:induction false} IdleRequestsSleep(m: Machine, cfg: seq<u32>, ins: seq<Reading>)
    requires |cfg| == CONFIG_COUNT && cfg[CONFIG_ADC_VOLT_PULLDOWN] != 0
    requires m.state == Standby && AllAsleep(cfg, ins)
    requires m.uvloCount as int + |ins| < WORD_MOD
    ensures var r := Run(m, cfg, ins);
      r.state == Standby && r.enRouter == m.enRouter && r.enDc == m.enDc &&
      r.uvloCount as int == m.uvloCount as int + |ins| &&
      r.sleepRequested == (m.sleepRequested || (|ins| > 0 && r.uvloCount > cfg[CONFIG_TIME_ENTER_SLEEP]))
    decreases |ins|
  {
    if |ins| > 0 {
      var m1 := Tick(m, cfg, ins[0]);
      assert Inc32(m.uvloCount) as int == m.uvloCount as int + 1;
      assert AllAsleep(cfg, ins[1..]) by {
        forall i | 0 <= i < |ins| - 1 ensures ins[1..][i] == ins[i + 1] { }
      }
      IdleRequestsSleep(m1, cfg, ins[1..]);
    }
  }

  // ---------------------------------------------------------------------------
  // The sequencer as globals

  class PowerSequencer {
    var sysState: SystemState
    var timeCount: u32
    var uvloCount: u32
    var wdtCount: u32
    /** The level last written to the router enable pin. */
    var enRouter: bool
    /** The level last written to the DC-DC enable pin. */
    var enDc: bool
    /** Pulses sent on the shutdown-notify pin. */
    var notices: nat
    /** Low-then-high cycles of the router enable. */
    var routerCycles: nat
    /** prepareSleepMode was called. */
    var sleepRequested: bool

    function Snapshot(): Machine
      reads this
    {
      Machine(sysState, timeCount, uvloCount, wdtCount, enRouter, enDc, notices, routerCycles, sleepRequested)
    }

    /** The globals' initial values together with setup's writes of LOW to both enables. */
    constructor ()
      ensures Snapshot() == BOOT && Powered(Snapshot())
    {
      sysState := Standby;
      timeCount, uvloCount, wdtCount := 0, 0, 0;
      enRouter, enDc := false, false;
      notices, routerCycles := 0, 0;
      sleepRequested := false;
    }

    /** setSystemState */
    method SetSystemState(s: SystemState)
      modifies this
      ensures Snapshot() == Enter(old(Snapshot()), s)
    {
      sysState := s;
      match s
      case Starting =>
        timeCount := 0;
        enRouter := true;
        enDc := true;
      case Running =>
        wdtCount := 0;
        uvloCount := 0;
        timeCount := 0;
      case ShuttingDown =>
        notices := notices + 1;
        timeCount := 0;
      case Restarting =>
        enRouter := false;
        enRouter := true;
        routerCycles := routerCycles + 1;
        timeCount := 0;
      case Standby =>
        timeCount := 0;
        uvloCount := 0;
    }

    /** SystemStateLoop: one tick, with the thresholds read from the configuration store. */
    method SystemStateLoop(ee: FlashEE, input: Reading)
      requires ee.Valid()
      requires ReadsVoltage(sysState, input.awake) ==> GetConfigValue(ee, CONFIG_ADC_VOLT_PULLDOWN) != 0
      modifies this
      ensures Snapshot() == Tick(old(Snapshot()), ConfigOf(ee), input)
    {
      match sysState
      case Starting =>
        StartingStep(ee);
      case Restarting =>
        StartingStep(ee);
      case Running =>
        RunningStep(ee, input);
      case ShuttingDown =>
        ShuttingDownStep(ee);
      case Standby =>
        StandbyStep(ee, input);
    }

    /** The RUNNING case of SystemStateLoop: the under-voltage check, then the watchdog. */
    method RunningStep(ee: FlashEE, input: Reading)
      requires ee.Valid() && sysState == Running
      requires !input.awake ==> GetConfigValue(ee, CONFIG_ADC_VOLT_PULLDOWN) != 0
      modifies this
      ensures Snapshot() == RunningTick(old(Snapshot()), ConfigOf(ee), input)
    {
      if !input.awake && GetVoltage(ee, input.adc) < GetConfigValue(ee, CONFIG_VOLT_UVLO) {
        uvloCount := Inc32(uvloCount);
        if uvloCount > GetConfigValue(ee, CONFIG_TIMEOUT_UVLO) {
          SetSystemState(ShuttingDown);
          return;
        }
      } else {
        uvloCount := 0;
      }
      wdtCount := Inc32(wdtCount);
      if input.buttonLow {
        wdtCount := 0;
      }
      if wdtCount > GetConfigValue(ee, CONFIG_TIMEOUT_WDT) {
        SetSystemState(Restarting);
      }
    }

    /** The SHUTTING_DOWN case of SystemStateLoop. */
    method ShuttingDownStep(ee: FlashEE)
      requires ee.Valid() && sysState == ShuttingDown
      modifies this
      ensures Snapshot() == ShuttingDownTick(old(Snapshot()), ConfigOf(ee))
    {
      timeCount := Inc32(timeCount);
      if timeCount > GetConfigValue(ee, CONFIG_TIME_SHUTDOWN) {
        enRouter := false;
        enDc := false;
        SetSystemState(Standby);
      }
    }

    /** The STANDBY case of SystemStateLoop: count towards wake-up or towards sleep. */
    method StandbyStep(ee: FlashEE, input: Reading)
      requires ee.Valid() && sysState == Standby
      requires GetConfigValue(ee, CONFIG_ADC_VOLT_PULLDOWN) != 0
      modifies this
      ensures Snapshot() == StandbyTick(old(Snapshot()), ConfigOf(ee), input)
    {
      var volt := GetVoltage(ee, input.adc);
      if input.awake || volt >= GetConfigValue(ee, CONFIG_VOLT_WAKEUP) {
        timeCount := Inc32(timeCount);
        uvloCount := 0;
        if timeCount > GetConfigValue(ee, CONFIG_TIME_WAKEUP) {
          SetSystemState(Starting);
        }
      } else {
        timeCount := 0;
        uvloCount := Inc32(uvloCount);
        if uvloCount > GetConfigValue(ee, CONFIG_TIME_ENTER_SLEEP) {
          sleepRequested := true;
        }
      }
    }

    /** The shared STARTING / RESTARTING case of SystemStateLoop. */
    method StartingStep(ee: FlashEE)
      requires ee.Valid() && (sysState == Starting || sysState == Restarting)
      modifies this
      ensures Snapshot() == StartingTick(old(Snapshot()), ConfigOf(ee))
    {
      timeCount := Inc32(timeCount);
      if timeCount >= GetConfigValue(ee, CONFIG_TIME_STARTING) {
        SetSystemState(Running);
      }
    }
  }

  // ---------------------------------------------------------------------------
  // Loading the configuration at boot (setup)

  /** The configuration after setup as written: defaults exactly when ee_init returned 0. */
  ghost function BootConfigAsWritten(f: seq<Page>): (c: seq<u32>)
    requires Region(f)
    ensures |c| == CONFIG_COUNT
  {
    if Scan(f, EE_VERSION) == 0 then CONFIG_DEFAULTS else BootStorage(f, EE_VERSION)[..CONFIG_COUNT]
  }

  /** The configuration after setup as intended: defaults exactly when no page held a record. */
  ghost function BootConfig(f: seq<Page>): (c: seq<u32>)
    requires Region(f)
    ensures |c| == CONFIG_COUNT
  {
    if Scan(f, EE_VERSION) == PAGES then CONFIG_DEFAULTS else BootStorage(f, EE_VERSION)[..CONFIG_COUNT]
  }

  /** setup's configuration step as written: `if (!ee_init(EE_VERSION)) setConfigDefaults();`. */
  method LoadConfigAsWritten(ee: FlashEE) returns (usedDefaults: bool)
    requires ee.Valid()
    modifies ee`cur, ee.buf
    ensures ee.Valid()
    ensures usedDefaults <==> Scan(ee.flash, EE_VERSION) == 0
    ensures ConfigOf(ee) == BootConfigAsWritten(ee.flash)
  {
    var r := ee.Init(EE_VERSION);
    usedDefaults := r == 0;
    if usedDefaults {
      SetConfigDefaults(ee);
    }
  }

  /** setup's configuration step as intended: defaults when ee_init reports a cold start. */
  method LoadConfig(ee: FlashEE) returns (usedDefaults: bool)
    requires ee.Valid()
    modifies ee`cur, ee.buf
    ensures ee.Valid()
    ensures usedDefaults <==> Scan(ee.flash, EE_VERSION) == PAGES
    ensures ConfigOf(ee) == BootConfig(ee.flash)
  {
    var r := ee.Init(EE_VERSION);
    usedDefaults := r < 0;
    if usedDefaults {
      SetConfigDefaults(ee);
    }
  }

  /** A region that has never been written: every page erased. */
  function BlankRegion(): (f: seq<Page>)
  {
    seq(PAGES, _ => ErasedPage())
  }

  lemma BlankRegionScan()
    ensures Region(BlankRegion()) && Scan(BlankRegion(), EE_VERSION) == PAGES
  {
    ErasedPageInvalid(EE_VERSION);
    ScanIsFirstValid(BlankRegion(), EE_VERSION, PAGES);
  }

  /**
   * As written, a device with blank flash runs on the cold-start fill: every
   * configuration word reads 0xff, not its default.
   */
  lemma ColdStartKeepsFill()
    ensures Region(BlankRegion())
    ensures forall id: ConfigId :: BootConfigAsWritten(BlankRegion())[id] == COLD_FILL
    ensures BootConfigAsWritten(BlankRegion()) != CONFIG_DEFAULTS
  {
    BlankRegionScan();
    assert BootConfigAsWritten(BlankRegion())[CONFIG_ADC_VOLT_PULLUP] == COLD_FILL;
  }

  /** A region whose page 0 holds a valid record with a 30 kOhm pull-down. */
  function SavedOnPageZero(): (f: seq<Page>)
  {
    var s := CONFIG_DEFAULTS[CONFIG_ADC_VOLT_PULLDOWN := 30] + seq(STORAGE_SIZE - CONFIG_COUNT, _ => 0);
    var p := FlashPart(FLAG, EE_VERSION, SumFrom(EE_VERSION, s), s, FLAG);
    [Encode(p), ErasedPage(), ErasedPage(), ErasedPage()]
  }

  /**
   * As written, a configuration saved on page 0 is replaced by the defaults at boot:
   * the stored pull-down is 30 but the device runs with 20.
   */
  lemma PageZeroConfigDiscarded()
    ensures Region(SavedOnPageZero())
    ensures Scan(SavedOnPageZero(), EE_VERSION) == 0
    ensures Decode(SavedOnPageZero()[0]).storage[CONFIG_ADC_VOLT_PULLDOWN] == 30
    ensures BootConfigAsWritten(SavedOnPageZero())[CONFIG_ADC_VOLT_PULLDOWN] == 20
  {
    var s := CONFIG_DEFAULTS[CONFIG_ADC_VOLT_PULLDOWN := 30] + seq(STORAGE_SIZE - CONFIG_COUNT, _ => 0);
    var p := FlashPart(FLAG, EE_VERSION, SumFrom(EE_VERSION, s), s, FLAG);
    DecodeEncode(p);
    var f := SavedOnPageZero();
    assert f[0] == Encode(p);
    assert PageValid(f[0], EE_VERSION);
    ScanIsFirstValid(f, EE_VERSION, 0);
  }

  /** Corrected: a blank device boots with the defaults. */
  lemma ColdStartUsesDefaults()
    ensures Region(BlankRegion()) && BootConfig(BlankRegion()) == CONFIG_DEFAULTS
  {
    BlankRegionScan();
  }

  /**
   * Corrected: whatever a save commits is what the next boot runs with, including a
   * save that lands on page 0.
   */
  lemma SavedConfigSurvivesReboot(f: seq<Page>, cur: nat, w: Page)
    requires Region(f) && cur <= PAGES && |w| == PAGE_WORDS
    requires PageValid(w, EE_VERSION)
    requires forall j :: 0 <= j < NextPage(cur) && j != cur ==> !PageValid(f[j], EE_VERSION)
    ensures BootConfig(Commit(f, cur, w)) == Decode(w).storage[..CONFIG_COUNT]
  {
    SaveThenScan(f, cur, w, EE_VERSION);
  }

  /** Corrected: the record on page 0 is the configuration the device runs with. */
  lemma PageZeroConfigKept()
    ensures Region(SavedOnPageZero())
    ensures BootConfig(SavedOnPageZero())[CONFIG_ADC_VOLT_PULLDOWN] == 30
  {
    PageZeroConfigDiscarded();
  }
}
