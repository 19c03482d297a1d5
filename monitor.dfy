/** The display scheduler of `app/hardware_monitor/monitor.py`
    (`HardwareMonitorAPI`), run sequentially. A screen driver is named by its
    unique id; which drivers are open is a set of ids; every driver call that
    returns and every error shown to the user is appended to an operation log.
    What a driver call or the theme renderer does in one loop cycle comes from
    an input sequence, and so does the one place per cycle where the user
    interface thread may step in (stopping the display or deselecting the
    screen) just before the loop takes the display lock. */
module Monitor {
  import opened Common

  /** A driver call that returned, or an error shown to the user. */
  datatype Op =
    | OpenLcd(uid: string)
    | CloseLcd(uid: string)
    | ShowFrame(uid: string)
    | SetLevel(uid: string, brightness: int)
    | Alert(message: string)

  const ScreenDisplayFailed := "msg.ScreenDisplayFailed"
  const BrightnessSetFailed := "msg.BrightnessSetFailed"
  /** `error_limit`: the loop gives up on the failure that makes the count exceed it. */
  const ErrorLimit := 10
  /** `__set_brightness` tries this many times. */
  const Attempts := 3
  /** Brightness used when the saved screen settings have none. */
  const DefaultBrightness := 100

  /** The fields of the scheduler that the modelled operations read or write. */
  datatype Snapshot = Snapshot(
    connected: set<string>,
    lcd: Option<string>,
    openIds: set<string>,
    display: bool,
    brightness: int,
    ops: seq<Op>)

  /** The condition the loop tests at its head and after every lock acquisition. */
  predicate Running(s: Snapshot) {
    s.display && s.lcd.Some?
  }

  predicate LcdOpen(s: Snapshot) {
    s.lcd.Some? && s.lcd.value in s.openIds
  }

  /** `lcd.close()` on the selected driver. */
  function Close(s: Snapshot): Snapshot
    requires s.lcd.Some?
  {
    s.(openIds := s.openIds - {s.lcd.value}, ops := s.ops + [CloseLcd(s.lcd.value)])
  }

  /** `lcd.open()` on the selected driver, when it opens the device. */
  function Open(s: Snapshot): Snapshot
    requires s.lcd.Some?
  {
    s.(openIds := s.openIds + {s.lcd.value}, ops := s.ops + [OpenLcd(s.lcd.value)])
  }

  /** `lcd.open()` returning without opening the device: both serial
      drivers swallow a missing port or device and leave it closed. */
  function OpenStaysClosed(s: Snapshot): Snapshot
    requires s.lcd.Some?
  {
    s.(ops := s.ops + [OpenLcd(s.lcd.value)])
  }

  /** `__stop_display`: display off, and the selected driver closed if it is open. */
  function StopEffect(s: Snapshot): Snapshot {
    var s1 := s.(display := false);
    if LcdOpen(s1) then Close(s1) else s1
  }

  /** What the user interface thread may do while the loop runs: switch the
      display off (`toggleDisplay(False)`), or select a screen that has no
      driver, which closes the current one and leaves none selected. */
  datatype Interference = StopByUser | Deselect

  function Interfere(s: Snapshot, action: Interference): Snapshot {
    match action
    case StopByUser => StopEffect(s)
    case Deselect => if s.lcd.Some? then Close(s).(lcd := None) else s
  }

  /** The three lock acquisitions of one cycle: reopening a closed device,
      showing the frame, recovering from an error. */
  datatype LockPoint = BeforeReopen | BeforeShow | BeforeRecover

  /** At most one interference per cycle, just before the named lock; a cycle
      that never reaches that lock is not interfered with. */
  datatype Interrupt = Calm | Interrupt(at: LockPoint, action: Interference)

  /** What the renderer hands over: an empty image source, a usable image, or
      an error while rendering or decoding it. */
  datatype Frame = Blank | Rendered | Broken

  /** How a reopen ends: the device opens, `open` returns with it still
      closed, or `open` raises. */
  datatype OpenResult = Opened | StaysClosed | OpenRaises

  /** One pass through the loop body, as the outside world decides it:
      `showOk` is whether `display` returns when the device is open (on a
      closed device both serial drivers raise). */
  datatype Cycle = Cycle(interrupt: Interrupt, open: OpenResult, frame: Frame, showOk: bool)

  /** How a cycle ends: with the error count the next cycle starts from, or
      with a `break`. */
  datatype Next = Continue(count: nat) | Exit

  function InterferenceEffect(s: Snapshot, c: Cycle, at: LockPoint): Snapshot {
    if c.interrupt.Interrupt? && c.interrupt.at == at then Interfere(s, c.interrupt.action) else s
  }

  /** The `except` branch: close the device, count the error, give up with
      one alert past the limit. */
  function RecoverEffect(s: Snapshot, c: Cycle, count: nat): (Snapshot, Next) {
    var s1 := InterferenceEffect(s, c, BeforeRecover);
    if !Running(s1) then (s1, Exit)
    else
      var s2 := Close(s1);
      if count + 1 > ErrorLimit then (s2.(ops := s2.ops + [Alert(ScreenDisplayFailed)]), Exit)
      else (s2, Continue(count + 1))
  }

  /** From fetching the image source on: an empty source `continue`s with the
      count untouched, a shown frame resets the count, a frame for a device
      that is not open fails. */
  function Show(s: Snapshot, c: Cycle, count: nat): (Snapshot, Next) {
    match c.frame
    case Blank => (s, Continue(count))
    case Broken => RecoverEffect(s, c, count)
    case Rendered =>
      var s1 := InterferenceEffect(s, c, BeforeShow);
      if !Running(s1) then (s1, Exit)
      else if c.showOk && LcdOpen(s1) then (s1.(ops := s1.ops + [ShowFrame(s1.lcd.value)]), Continue(0))
      else RecoverEffect(s1, c, count)
  }

  /** One iteration of the `while` body of `__display_loop`, entered with the
      loop condition true. */
  function Step(s: Snapshot, c: Cycle, count: nat): (Snapshot, Next)
    requires Running(s)
  {
    if LcdOpen(s) then Show(s, c, count)
    else
      var s1 := InterferenceEffect(s, c, BeforeReopen);
      if !Running(s1) then (s1, Exit) else Reopen(s1, c, count)
  }

  /** `close()` then `open()` under the lock, and the rest of the cycle. */
  function Reopen(s: Snapshot, c: Cycle, count: nat): (Snapshot, Next)
    requires s.lcd.Some?
  {
    var s2 := Close(s);
    match c.open
    case Opened => Show(Open(s2), c, count)
    case StaysClosed => Show(OpenStaysClosed(s2), c, count)
    case OpenRaises => RecoverEffect(s2, c, count)
  }

  /** The loop from its head, over the cycles the outside world still has;
      when they run out the loop is still running and the state is returned
      as it is. Every exit goes through `__stop_display`. */
  function Loop(s: Snapshot, cycles: seq<Cycle>, count: nat): Snapshot
    decreases |cycles|
  {
    if !Running(s) then StopEffect(s)
    else if cycles == [] then s
    else
      var (s1, next) := Step(s, cycles[0], count);
      match next
      case Exit => StopEffect(s1)
      case Continue(n) => Loop(s1, cycles[1..], n)
  }

  /** `__display_loop`: nothing when the display is already on. */
  function DisplayLoopEffect(s: Snapshot, cycles: seq<Cycle>): Snapshot {
    if s.display then s else Loop(s.(display := true), cycles, 0)
  }

  function AttemptOk(attempts: seq<bool>, i: nat): bool {
    i < |attempts| && attempts[i]
  }

  /** `__set_brightness` from attempt `i` on: open the device if needed and
      send the level; on an error close it and, on the last attempt, show one
      error. Attempts past the end of `attempts` fail. */
  function BrightnessFrom(s: Snapshot, attempts: seq<bool>, i: nat): Snapshot
    decreases Attempts - i
  {
    if i >= Attempts || s.lcd.None? then s
    else if AttemptOk(attempts, i) then
      var s1 := if LcdOpen(s) then s else Open(s);
      s1.(ops := s1.ops + [SetLevel(s.lcd.value, s.brightness)])
    else
      var s1 := Close(s);
      var s2 := if i == Attempts - 1 then s1.(ops := s1.ops + [Alert(BrightnessSetFailed)]) else s1;
      BrightnessFrom(s2, attempts, i + 1)
  }

  function BrightnessEffect(s: Snapshot, attempts: seq<bool>): Snapshot {
    BrightnessFrom(s, attempts, 0)
  }

  /** `selectScreen(uid)`: the driver is the connected screen of that id, if
      any. Re-selecting the current screen changes nothing; otherwise the
      previous driver is closed, the new one (possibly none) installed and,
      when there is one, its saved brightness applied. */
  function SelectEffect(s: Snapshot, uid: string, saved: Option<int>, attempts: seq<bool>): (Snapshot, bool) {
    if s.lcd == Some(uid) then (s, true)
    else
      var s1 := if s.lcd.Some? then Close(s) else s;
      var driver := if uid in s.connected then Some(uid) else None;
      var s2 := s1.(lcd := driver);
      if driver.Some? then
        var level := if saved.Some? then saved.value else DefaultBrightness;
        (BrightnessEffect(s2.(brightness := level), attempts), true)
      else (s2, false)
  }

  /** `toggleDisplay`: starting runs the display loop to the end of the cycles
      the outside world supplies. */
  function ToggleEffect(s: Snapshot, on: bool, cycles: seq<Cycle>): Snapshot {
    if on then DisplayLoopEffect(s, cycles) else StopEffect(s)
  }

  function Repeat<T>(x: seq<T>, n: nat): (r: seq<T>)
    ensures |r| == n * |x|
  {
    if n == 0 then [] else x + Repeat(x, n - 1)
  }

  function CountAlerts(ops: seq<Op>): nat {
    if ops == [] then 0 else CountAlerts(ops[..|ops| - 1]) + if ops[|ops| - 1].Alert? then 1 else 0
  }

  /** Appending one operation adds one to the count iff it is an alert. */
  lemma CountSnoc(ops: seq<Op>, x: Op)
    ensures CountAlerts(ops + [x]) == CountAlerts(ops) + if x.Alert? then 1 else 0
  {
    assert (ops + [x])[..|ops|] == ops;
  }

  lemma CloseQuiet(s: Snapshot)
    requires s.lcd.Some?
    ensures CountAlerts(Close(s).ops) == CountAlerts(s.ops) && s.ops <= Close(s).ops
  {
    CountSnoc(s.ops, CloseLcd(s.lcd.value));
  }

  lemma OpenQuiet(s: Snapshot)
    requires s.lcd.Some?
    ensures CountAlerts(Open(s).ops) == CountAlerts(s.ops) && s.ops <= Open(s).ops
    ensures CountAlerts(OpenStaysClosed(s).ops) == CountAlerts(s.ops) && s.ops <= OpenStaysClosed(s).ops
  {
    CountSnoc(s.ops, OpenLcd(s.lcd.value));
  }

  /** The other thread's step adds no alert; when the loop condition still
      holds after it, the same screen is selected. */
  lemma InterferenceQuiet(s: Snapshot, c: Cycle, at: LockPoint)
    ensures var r := InterferenceEffect(s, c, at);
      && s.ops <= r.ops && CountAlerts(r.ops) == CountAlerts(s.ops)
      && (Running(r) ==> r.lcd == s.lcd)
  {
    if LcdOpen(s) {
      CloseQuiet(s.(display := false));
    }
    if s.lcd.Some? {
      CloseQuiet(s);
    }
  }

  /** What the re-checks guarantee about how one cycle ends. */
  predicate CycleOutcome(s: Snapshot, r: Snapshot, next: Next) {
    && (next.Continue? ==> Running(r) && r.lcd == s.lcd)
    && (next.Exit? ==> !Running(r) || (|r.ops| > 0 && r.ops[|r.ops| - 1] == Alert(ScreenDisplayFailed)))
    && CountAlerts(r.ops) <= CountAlerts(s.ops) + (if next.Exit? then 1 else 0)
    && s.ops <= r.ops
  }

  lemma RecoverOutcome(s: Snapshot, c: Cycle, count: nat)
    ensures CycleOutcome(s, RecoverEffect(s, c, count).0, RecoverEffect(s, c, count).1)
  {
    var s1 := InterferenceEffect(s, c, BeforeRecover);
    InterferenceQuiet(s, c, BeforeRecover);
    if Running(s1) {
      var s2 := Close(s1);
      CloseQuiet(s1);
      CountSnoc(s2.ops, Alert(ScreenDisplayFailed));
    }
  }

  lemma ShowOutcome(s: Snapshot, c: Cycle, count: nat)
    requires Running(s)
    ensures CycleOutcome(s, Show(s, c, count).0, Show(s, c, count).1)
  {
    match c.frame
    case Blank =>
    case Broken => RecoverOutcome(s, c, count);
    case Rendered =>
      var s1 := InterferenceEffect(s, c, BeforeShow);
      InterferenceQuiet(s, c, BeforeShow);
      if Running(s1) {
        if c.showOk && LcdOpen(s1) {
          CountSnoc(s1.ops, ShowFrame(s1.lcd.value));
        } else {
          RecoverOutcome(s1, c, count);
        }
      }
  }

  /** A cycle ends the loop only when the re-check after a lock fails or the
      error limit is passed (the alert is then the last operation); a cycle
      that continues leaves the loop condition true with the same screen. A
      cycle adds at most one alert, and only when it ends the loop. */
  lemma CycleRechecks(s: Snapshot, c: Cycle, count: nat)
    requires Running(s)
    ensures CycleOutcome(s, Step(s, c, count).0, Step(s, c, count).1)
  {
    if LcdOpen(s) {
      ShowOutcome(s, c, count);
    } else {
      var s1 := InterferenceEffect(s, c, BeforeReopen);
      InterferenceQuiet(s, c, BeforeReopen);
      if Running(s1) {
        ReopenOutcome(s1, c, count);
        OutcomeThrough(s, s1, Reopen(s1, c, count).0, Reopen(s1, c, count).1);
      }
    }
  }

  lemma ReopenOutcome(s: Snapshot, c: Cycle, count: nat)
    requires Running(s)
    ensures CycleOutcome(s, Reopen(s, c, count).0, Reopen(s, c, count).1)
  {
    var s2 := Close(s);
    CloseQuiet(s);
    OpenQuiet(s2);
    var t := match c.open
      case Opened => Open(s2)
      case StaysClosed => OpenStaysClosed(s2)
      case OpenRaises => s2;
    if c.open.OpenRaises? {
      RecoverOutcome(s2, c, count);
    } else {
      ShowOutcome(t, c, count);
    }
    OutcomeThrough(s, t, Reopen(s, c, count).0, Reopen(s, c, count).1);
  }

  /** A quiet step that keeps the screen can be prefixed to a cycle's end. */
  lemma OutcomeThrough(s: Snapshot, t: Snapshot, r: Snapshot, next: Next)
    requires t.lcd == s.lcd && s.ops <= t.ops && CountAlerts(t.ops) == CountAlerts(s.ops)
    requires CycleOutcome(t, r, next)
    ensures CycleOutcome(s, r, next)
  {
  }

  /** A shown frame resets the error count, whatever it was. */
  lemma ShownFrameResets(s: Snapshot, c: Cycle, count: nat)
    requires Running(s) && c.interrupt == Calm && c.frame == Rendered && c.showOk
    requires LcdOpen(s) || c.open == Opened
    ensures Step(s, c, count).1 == Continue(0)
    ensures Step(s, c, count).0.ops[|Step(s, c, count).0.ops| - 1] == ShowFrame(s.lcd.value)
  {
  }

  /** An empty image source continues with the count untouched and shows
      nothing, also when the reopen left the device closed. */
  lemma BlankKeepsCount(s: Snapshot, c: Cycle, count: nat)
    requires Running(s) && c.interrupt == Calm && c.frame == Blank
    requires LcdOpen(s) || c.open != OpenRaises
    ensures Step(s, c, count).1 == Continue(count)
    ensures forall k | |s.ops| <= k < |Step(s, c, count).0.ops| :: !Step(s, c, count).0.ops[k].ShowFrame?
  {
  }

  /** A failing cycle closes the device and counts one more error; the
      failure that takes the count past the limit ends the loop with one
      alert. */
  lemma FailureCounts(s: Snapshot, c: Cycle, count: nat)
    requires Running(s) && c.interrupt == Calm
    requires || c.frame == Broken
             || (c.frame == Rendered && (!c.showOk || (!LcdOpen(s) && c.open == StaysClosed)))
             || (!LcdOpen(s) && c.open == OpenRaises)
    ensures var (s1, next) := Step(s, c, count);
      && !LcdOpen(s1) && s1.lcd == s.lcd
      && (count < ErrorLimit ==> next == Continue(count + 1) && s1.ops[|s1.ops| - 1] == CloseLcd(s.lcd.value))
      && (count >= ErrorLimit ==> next == Exit && s1.ops[|s1.ops| - 1] == Alert(ScreenDisplayFailed))
  {
  }

  // ---------------------------------------------------------------------------
  // Properties of the whole loop.

  /** The operations of one failing cycle on a closed device: close, reopen,
      close after the error. */
  function ReopenAndFail(uid: string): seq<Op> {
    [CloseLcd(uid), OpenLcd(uid), CloseLcd(uid)]
  }

  predicate PlainFailure(c: Cycle) {
    c.interrupt == Calm && c.open == Opened && c.frame == Rendered && !c.showOk
  }

  /** A cycle while the device is unplugged and the theme yields no image. */
  predicate UnpluggedBlank(c: Cycle) {
    c.interrupt == Calm && c.open == StaysClosed && c.frame == Blank
  }

  /** While a closed device stays unplugged and the theme yields no image,
      every cycle closes and reopens it and `continue`s: the loop neither
      counts an error nor stops, and the device stays closed. */
  lemma {:induction false} UnpluggedKeepsRetrying(s: Snapshot, cycles: seq<Cycle>, count: nat)
    requires Running(s) && !LcdOpen(s)
    requires forall i | 0 <= i < |cycles| :: UnpluggedBlank(cycles[i])
    ensures Loop(s, cycles, count) == s.(ops := s.ops + Repeat([CloseLcd(s.lcd.value), OpenLcd(s.lcd.value)], |cycles|))
    decreases |cycles|
  {
    var uid := s.lcd.value;
    if cycles != [] {
      var (s1, next) := Step(s, cycles[0], count);
      assert next == Continue(count);
      assert s1 == s.(ops := s.ops + [CloseLcd(uid), OpenLcd(uid)]);
      assert forall i | 0 <= i < |cycles[1..]| :: UnpluggedBlank(cycles[1..][i]) by {
        forall i | 0 <= i < |cycles[1..]| ensures UnpluggedBlank(cycles[1..][i]) {
          assert cycles[1..][i] == cycles[i + 1];
        }
      }
      UnpluggedKeepsRetrying(s1, cycles[1..], count);
      assert s.ops + [CloseLcd(uid), OpenLcd(uid)] + Repeat([CloseLcd(uid), OpenLcd(uid)], |cycles| - 1)
          == s.ops + Repeat([CloseLcd(uid), OpenLcd(uid)], |cycles|);
    }
  }

  /** From a closed device and error count `count`, the next `11 - count`
      failing cycles end the loop: exactly that many reopen-and-fail rounds,
      one alert, display off. */
  lemma {:induction false} FailingRun(s: Snapshot, cycles: seq<Cycle>, count: nat)
    requires Running(s) && !LcdOpen(s) && count <= ErrorLimit
    requires |cycles| >= ErrorLimit + 1 - count
    requires forall i | 0 <= i < ErrorLimit + 1 - count :: PlainFailure(cycles[i])
    ensures Loop(s, cycles, count)
         == s.(display := false,
               ops := s.ops + Repeat(ReopenAndFail(s.lcd.value), ErrorLimit + 1 - count) + [Alert(ScreenDisplayFailed)])
    decreases ErrorLimit - count
  {
    var uid := s.lcd.value;
    var (s1, next) := Step(s, cycles[0], count);
    assert s1 == s.(ops := s.ops + ReopenAndFail(uid)) || s1 == s.(ops := s.ops + ReopenAndFail(uid) + [Alert(ScreenDisplayFailed)]);
    if count == ErrorLimit {
      assert next == Exit;
    } else {
      assert next == Continue(count + 1);
      assert s1 == s.(ops := s.ops + ReopenAndFail(uid));
      FailingRun(s1, cycles[1..], count + 1);
      assert s.ops + ReopenAndFail(uid) + Repeat(ReopenAndFail(uid), ErrorLimit - count) + [Alert(ScreenDisplayFailed)]
          == s.ops + Repeat(ReopenAndFail(uid), ErrorLimit + 1 - count) + [Alert(ScreenDisplayFailed)];
    }
  }

  /** Eleven consecutive display failures right after the loop starts stop it
      with exactly one alert; the device ends closed and the display off. */
  lemma ElevenFailuresStop(s: Snapshot, cycles: seq<Cycle>)
    requires !s.display && s.lcd.Some?
    requires |cycles| >= ErrorLimit + 1
    requires forall i | 0 <= i < ErrorLimit + 1 :: PlainFailure(cycles[i])
    ensures var r := DisplayLoopEffect(s, cycles);
      && !r.display && !LcdOpen(r) && r.lcd == s.lcd
      && r.ops == s.ops + (if LcdOpen(s) then [CloseLcd(s.lcd.value)] else ReopenAndFail(s.lcd.value))
                        + Repeat(ReopenAndFail(s.lcd.value), ErrorLimit) + [Alert(ScreenDisplayFailed)]
  {
    var uid := s.lcd.value;
    var s0 := s.(display := true);
    var (s1, next) := Step(s0, cycles[0], 0);
    assert next == Continue(1);
    assert s1 == s0.(openIds := s.openIds - {uid},
                     ops := s.ops + (if LcdOpen(s) then [CloseLcd(uid)] else ReopenAndFail(uid)));
    FailingRun(s1, cycles[1..], 1);
    assert forall i | 0 <= i < ErrorLimit :: PlainFailure(cycles[1..][i]);
  }

  /** Whenever the loop has stopped, the display is off and the selected
      driver (if any) is closed; while it still runs, a screen is selected.
      One run of the loop shows at most one alert. */
  lemma {:induction false} LoopEnds(s: Snapshot, cycles: seq<Cycle>, count: nat)
    ensures var r := Loop(s, cycles, count);
      && (r.display ==> Running(r) && r.lcd == s.lcd)
      && (!r.display ==> !LcdOpen(r))
      && s.ops <= r.ops
      && CountAlerts(r.ops) <= CountAlerts(s.ops) + 1
    decreases |cycles|
  {
    var r := Loop(s, cycles, count);
    if !Running(s) || cycles == [] {
      StopDisplayAlerts(s);
    } else {
      var (s1, next) := Step(s, cycles[0], count);
      CycleRechecks(s, cycles[0], count);
      match next
      case Exit => StopDisplayAlerts(s1);
      case Continue(n) =>
        LoopEnds(s1, cycles[1..], n);
        var r1 := Loop(s1, cycles[1..], n);
        assert r == r1;
    }
  }

  lemma StopDisplayAlerts(s: Snapshot)
    ensures var r := StopEffect(s);
      !r.display && !LcdOpen(r) && r.lcd == s.lcd && s.ops <= r.ops && CountAlerts(r.ops) == CountAlerts(s.ops)
  {
    if LcdOpen(s) {
      CloseQuiet(s.(display := false));
    }
  }

  /** The display loop, started while already displaying, changes nothing;
      otherwise it ends in the state `LoopEnds` describes. */
  lemma DisplayLoopGuard(s: Snapshot, cycles: seq<Cycle>)
    ensures s.display ==> DisplayLoopEffect(s, cycles) == s
    ensures !s.display ==> var r := DisplayLoopEffect(s, cycles);
      (r.display ==> Running(r)) && (!r.display ==> !LcdOpen(r)) && CountAlerts(r.ops) <= CountAlerts(s.ops) + 1
  {
    if !s.display {
      LoopEnds(s.(display := true), cycles, 0);
    }
  }

  // ---------------------------------------------------------------------------
  // Brightness and screen selection.

  /** The number of failed attempts before the first success, at most three. */
  function LeadingFailures(attempts: seq<bool>, i: nat): (k: nat)
    ensures k <= Attempts - i || i >= Attempts
    decreases Attempts - i
  {
    if i >= Attempts || AttemptOk(attempts, i) then 0 else 1 + LeadingFailures(attempts, i + 1)
  }

  /** `__set_brightness` with a driver: one close per failed attempt, then
      either (before the third failure) an open if the device is closed and
      the level, or (after it) one alert. Selection and display flag stay. */
  lemma {:induction false} BrightnessOutcome(s: Snapshot, attempts: seq<bool>, i: nat)
    requires s.lcd.Some? && i <= Attempts
    ensures BrightnessShape(s, attempts, i, BrightnessFrom(s, attempts, i))
    decreases Attempts - i
  {
    if i < Attempts && !AttemptOk(attempts, i) {
      var s1 := Close(s);
      var s2 := if i == Attempts - 1 then s1.(ops := s1.ops + [Alert(BrightnessSetFailed)]) else s1;
      BrightnessOutcome(s2, attempts, i + 1);
      if i < Attempts - 1 {
        FailureBeforeLast(s, attempts, i);
      } else {
        FailureAtLast(s, attempts, i);
      }
    }
  }

  /** What `BrightnessOutcome` states about one run from attempt i. */
  predicate BrightnessShape(s: Snapshot, attempts: seq<bool>, i: nat, r: Snapshot)
    requires s.lcd.Some? && i <= Attempts
  {
    var k := LeadingFailures(attempts, i);
    var uid := s.lcd.value;
    && r.lcd == s.lcd && r.display == s.display && r.brightness == s.brightness
    && (i + k < Attempts ==>
          r.ops == s.ops + Repeat([CloseLcd(uid)], k)
                         + (if k == 0 && LcdOpen(s) then [] else [OpenLcd(uid)])
                         + [SetLevel(uid, s.brightness)]
          && LcdOpen(r))
    && (i + k == Attempts && i < Attempts ==>
          r.ops == s.ops + Repeat([CloseLcd(uid)], k - 1) + [CloseLcd(uid), Alert(BrightnessSetFailed)]
          && !LcdOpen(r))
  }

  lemma FailureBeforeLast(s: Snapshot, attempts: seq<bool>, i: nat)
    requires s.lcd.Some? && i < Attempts - 1 && !AttemptOk(attempts, i)
    requires BrightnessShape(Close(s), attempts, i + 1, BrightnessFrom(Close(s), attempts, i + 1))
    ensures BrightnessShape(s, attempts, i, BrightnessFrom(s, attempts, i))
  {
    var uid := s.lcd.value;
    var s2 := Close(s);
    var k := LeadingFailures(attempts, i);
    var r := BrightnessFrom(s, attempts, i);
    assert r == BrightnessFrom(s2, attempts, i + 1);
    assert s2.ops == s.ops + [CloseLcd(uid)];
    if i + k < Attempts {
      ConsAssoc(s.ops, CloseLcd(uid), Repeat([CloseLcd(uid)], k - 1), [OpenLcd(uid)], [SetLevel(uid, s.brightness)]);
    } else {
      ConsAssoc(s.ops, CloseLcd(uid), Repeat([CloseLcd(uid)], k - 2), [CloseLcd(uid), Alert(BrightnessSetFailed)], []);
    }
  }

  lemma FailureAtLast(s: Snapshot, attempts: seq<bool>, i: nat)
    requires s.lcd.Some? && i == Attempts - 1 && !AttemptOk(attempts, i)
    ensures BrightnessShape(s, attempts, i, BrightnessFrom(s, attempts, i))
  {
    var uid := s.lcd.value;
    assert Repeat([CloseLcd(uid)], 0) == [];
  }

  lemma ConsAssoc(a: seq<Op>, x: Op, b: seq<Op>, c: seq<Op>, d: seq<Op>)
    ensures (a + [x]) + b + c + d == a + ([x] + b) + c + d
  {
  }

  /** Without a selected screen `__set_brightness` does nothing. */
  lemma BrightnessNeedsScreen(s: Snapshot, attempts: seq<bool>)
    requires s.lcd.None?
    ensures BrightnessEffect(s, attempts) == s
  {
  }

  /** Selecting the current screen returns true and changes nothing; any other
      id closes the previous driver first, installs the connected driver of
      that id or none, and reports whether there is one. */
  lemma SelectScreenSwaps(s: Snapshot, uid: string, saved: Option<int>, attempts: seq<bool>)
    ensures var (r, ok) := SelectEffect(s, uid, saved, attempts);
      && (s.lcd == Some(uid) ==> r == s && ok)
      && (s.lcd != Some(uid) ==>
            && ok == (uid in s.connected)
            && r.lcd == (if ok then Some(uid) else None)
            && r.display == s.display
            && (s.lcd.Some? ==> |r.ops| > |s.ops| && r.ops[|s.ops|] == CloseLcd(s.lcd.value))
            && (!ok ==> r.ops == s.ops + (if s.lcd.Some? then [CloseLcd(s.lcd.value)] else []))
            && (ok ==> r.brightness == if saved.Some? then saved.value else DefaultBrightness))
  {
    if s.lcd != Some(uid) && uid in s.connected {
      var s1 := if s.lcd.Some? then Close(s) else s;
      var level := if saved.Some? then saved.value else DefaultBrightness;
      var s2 := s1.(lcd := Some(uid), brightness := level);
      BrightnessOutcome(s2, attempts, 0);
      assert s1.ops <= BrightnessFrom(s2, attempts, 0).ops;
    }
  }

  /** `toggleDisplay(False)` always leaves the display off and the device closed. */
  lemma ToggleOffStops(s: Snapshot, cycles: seq<Cycle>)
    ensures !ToggleEffect(s, false, cycles).display
    ensures !LcdOpen(ToggleEffect(s, false, cycles))
  {
  }

  // ---------------------------------------------------------------------------
  // The scheduler object.

  class HardwareMonitor {
    /** Ids of the screens `loadScreens` found. */
    var connected: set<string>
    /** `__lcd`, by the driver's unique id. */
    var lcd: Option<string>
    /** Ids of the drivers whose device is open. */
    var openIds: set<string>
    /** `__display`. */
    var display: bool
    /** `__brightness`. */
    var brightness: int
    /** Driver calls that returned and errors shown, in order. */
    var ops: seq<Op>

    /** `__init__`: no screen, display off, brightness 100; `connected` is
        what a later `loadScreens` finds. */
    constructor (connected: set<string>)
      ensures Snap() == Snapshot(connected, None, {}, false, DefaultBrightness, [])
    {
      this.connected := connected;
      lcd := None;
      openIds := {};
      display := false;
      brightness := DefaultBrightness;
      ops := [];
    }

    function Snap(): Snapshot
      reads this
    {
      Snapshot(connected, lcd, openIds, display, brightness, ops)
    }

    method CloseScreen()
      requires lcd.Some?
      modifies this
      ensures Snap() == Close(old(Snap()))
    {
      openIds := openIds - {lcd.value};
      ops := ops + [CloseLcd(lcd.value)];
    }

    method OpenScreen()
      requires lcd.Some?
      modifies this
      ensures Snap() == Open(old(Snap()))
    {
      openIds := openIds + {lcd.value};
      ops := ops + [OpenLcd(lcd.value)];
    }

    /** `__stop_display`. */
    method StopDisplay()
      modifies this
      ensures Snap() == StopEffect(old(Snap()))
    {
      display := false;
      if lcd.Some? && lcd.value in openIds {
        CloseScreen();
      }
    }

    /** The user interface thread's step, taken between two of the loop's own. */
    method InterfereAt(c: Cycle, at: LockPoint)
      modifies this
      ensures Snap() == InterferenceEffect(old(Snap()), c, at)
    {
      if c.interrupt.Interrupt? && c.interrupt.at == at {
        match c.interrupt.action
        case StopByUser => StopDisplay();
        case Deselect =>
          if lcd.Some? {
            CloseScreen();
            lcd := None;
          }
      }
    }

    method Recover(c: Cycle, count: nat) returns (next: Next)
      modifies this
      ensures (Snap(), next) == RecoverEffect(old(Snap()), c, count)
    {
      InterfereAt(c, BeforeRecover);
      if !(display && lcd.Some?) {
        return Exit;
      }
      CloseScreen();
      if count + 1 > ErrorLimit {
        ops := ops + [Alert(ScreenDisplayFailed)];
        return Exit;
      }
      next := Continue(count + 1);
    }

    /** One pass through the body of the `while` loop. */
    method RunCycle(c: Cycle, count: nat) returns (next: Next)
      requires display && lcd.Some?
      modifies this
      ensures (Snap(), next) == Step(old(Snap()), c, count)
    {
      if lcd.value !in openIds {
        InterfereAt(c, BeforeReopen);
        if !(display && lcd.Some?) {
          return Exit;
        }
        CloseScreen();
        match c.open
        case OpenRaises =>
          next := Recover(c, count);
          return;
        case StaysClosed =>
          ops := ops + [OpenLcd(lcd.value)];
        case Opened =>
          OpenScreen();
      }
      match c.frame
      case Blank =>
        next := Continue(count);
      case Broken =>
        next := Recover(c, count);
      case Rendered =>
        InterfereAt(c, BeforeShow);
        if !(display && lcd.Some?) {
          return Exit;
        }
        if c.showOk && lcd.value in openIds {
          ops := ops + [ShowFrame(lcd.value)];
          next := Continue(0);
        } else {
          next := Recover(c, count);
        }
    }

    /** `__display_loop`, run until it exits or the supplied cycles run out. */
    method DisplayLoop(cycles: seq<Cycle>)
      modifies this
      ensures Snap() == DisplayLoopEffect(old(Snap()), cycles)
    {
      if display {
        return;
      }
      display := true;
      ghost var target := Loop(Snap(), cycles, 0);
      var errorCount: nat := 0;
      var i := 0;
      while true
        invariant 0 <= i <= |cycles|
        invariant Loop(Snap(), cycles[i..], errorCount) == target
        decreases |cycles| - i
      {
        if !(display && lcd.Some?) {
          break;
        }
        if i == |cycles| {
          return;
        }
        ghost var before := Snap();
        var next := RunCycle(cycles[i], errorCount);
        assert cycles[i..][0] == cycles[i] && cycles[i..][1..] == cycles[i + 1..];
        if next.Exit? {
          assert Loop(before, cycles[i..], errorCount) == StopEffect(Snap());
          break;
        }
        errorCount := next.count;
        i := i + 1;
      }
      StopDisplay();
    }

    /** `__set_brightness`: up to three attempts, stopping at the first success. */
    method SetBrightness(attempts: seq<bool>)
      modifies this
      ensures Snap() == BrightnessEffect(old(Snap()), attempts)
    {
      ghost var target := BrightnessEffect(Snap(), attempts);
      for i := 0 to Attempts
        invariant BrightnessFrom(Snap(), attempts, i) == target
      {
        if lcd.None? {
          return;
        }
        if AttemptOk(attempts, i) {
          if lcd.value !in openIds {
            OpenScreen();
          }
          ops := ops + [SetLevel(lcd.value, brightness)];
          return;
        }
        CloseScreen();
        if i == Attempts - 1 {
          ops := ops + [Alert(BrightnessSetFailed)];
        }
      }
    }

    /** `selectScreen`. `saved` is the brightness stored in the screen's
        settings, if any. */
    method SelectScreen(uid: string, saved: Option<int>, attempts: seq<bool>) returns (ok: bool)
      modifies this
      ensures (Snap(), ok) == SelectEffect(old(Snap()), uid, saved, attempts)
    {
      if lcd == Some(uid) {
        return true;
      }
      if lcd.Some? {
        CloseScreen();
      }
      lcd := if uid in connected then Some(uid) else None;
      if lcd.Some? {
        brightness := if saved.Some? then saved.value else DefaultBrightness;
        SetBrightness(attempts);
      }
      ok := lcd.Some?;
    }

    /** `toggleDisplay`: switching on runs the display loop over `cycles`. */
    method ToggleDisplay(on: bool, cycles: seq<Cycle>)
      modifies this
      ensures Snap() == ToggleEffect(old(Snap()), on, cycles)
    {
      if on {
        DisplayLoop(cycles);
      } else {
        StopDisplay();
      }
    }
  }
}
