/** The selection logic of `app/hardware_monitor/sensors.py`: finding hardware
    by a filter, picking the CPU's sensors, and the network speed computation
    with its virtual-interface filter, counter-reset handling and last-valid
    cache. Hardware enumeration and sensor values come in as data. */
module Sensors {
  import opened Common

  datatype HardwareType = Cpu | Motherboard | GpuNvidia | GpuAmd | GpuIntel | Memory | Storage | OtherHardware
  datatype SensorType = Load | Clock | Temperature | Fan | OtherSensor

  datatype Sensor = Sensor(kind: SensorType, name: string)
  datatype Hardware = Hardware(kind: HardwareType, name: string, sensors: seq<Sensor>)

  // ---------------------------------------------------------------------------
  // get_hardware

  /** What `get_hardware` returns: one device, or a list. */
  datatype Found = One(hw: Hardware) | Many(hws: seq<Hardware>)

  /** The devices passing the filter, in enumeration order. */
  function Matches(hs: seq<Hardware>, filter: Hardware -> bool): (r: seq<Hardware>)
    ensures |r| <= |hs|
    ensures forall k | 0 <= k < |r| :: filter(r[k])
    decreases |hs|
  {
    if hs == [] then []
    else (if filter(hs[0]) then [hs[0]] else []) + Matches(hs[1..], filter)
  }

  /** The matches are devices of the list, and every device passing the
      filter is among them. */
  lemma {:induction false} MatchesMembers(hs: seq<Hardware>, filter: Hardware -> bool)
    ensures forall k | 0 <= k < |Matches(hs, filter)| :: Matches(hs, filter)[k] in hs
    ensures forall k | 0 <= k < |hs| :: filter(hs[k]) ==> hs[k] in Matches(hs, filter)
    decreases |hs|
  {
    if hs != [] {
      MatchesMembers(hs[1..], filter);
      var m := Matches(hs, filter);
      var t := Matches(hs[1..], filter);
      var h: seq<Hardware> := if filter(hs[0]) then [hs[0]] else [];
      assert m == h + t;
      forall k | 0 <= k < |m| ensures m[k] in hs {
        if k >= |h| {
          assert m[k] == t[k - |h|];
          assert t[k - |h|] in hs[1..];
        }
      }
      forall k | 0 <= k < |hs| && filter(hs[k]) ensures hs[k] in m {
        if k > 0 {
          assert hs[k] == hs[1..][k - 1];
          assert hs[k] in t;
        }
      }
    }
  }

  /** The first device passing the filter is the first element of the matches,
      and all devices before it fail the filter. */
  lemma {:induction false} FirstMatch(hs: seq<Hardware>, filter: Hardware -> bool)
    ensures (Matches(hs, filter) == []) <==> forall k | 0 <= k < |hs| :: !filter(hs[k])
    ensures Matches(hs, filter) != [] ==>
      exists i | 0 <= i < |hs| :: hs[i] == Matches(hs, filter)[0] && filter(hs[i])
        && forall k | 0 <= k < i :: !filter(hs[k])
    decreases |hs|
  {
    if hs != [] {
      FirstMatch(hs[1..], filter);
      if !filter(hs[0]) && Matches(hs, filter) != [] {
        var i :| 0 <= i < |hs[1..]| && hs[1..][i] == Matches(hs[1..], filter)[0] && filter(hs[1..][i])
          && forall k | 0 <= k < i :: !filter(hs[1..][k]);
        assert hs[i + 1] == Matches(hs, filter)[0];
        assert forall k | 0 <= k < i + 1 :: !filter(hs[k]) by {
          forall k | 0 <= k < i + 1 ensures !filter(hs[k]) {
            if k > 0 { assert hs[k] == hs[1..][k - 1]; }
          }
        }
      }
      if !filter(hs[0]) {
        forall k | 0 <= k < |hs[1..]| ensures hs[1..][k] == hs[k + 1] { }
      }
    }
  }

  /** `get_hardware` as written: with `all` false and no match it returns the
      empty list it started from, although its documentation promises `None`. */
  function GetHardwareAsWritten(hs: seq<Hardware>, filter: Hardware -> bool, all: bool): (r: Found)
    ensures all ==> r == Many(Matches(hs, filter))
    ensures !all && Matches(hs, filter) != [] ==> r == One(Matches(hs, filter)[0])
    ensures !all && Matches(hs, filter) == [] ==> r == Many([])
  {
    var m := Matches(hs, filter);
    if all then Many(m) else if m == [] then Many([]) else One(m[0])
  }

  /** The same search as the loop of the source: return at the first match,
      or collect all matches. */
  method GetHardwareLoop(hs: seq<Hardware>, filter: Hardware -> bool, all: bool) returns (r: Found)
    ensures r == GetHardwareAsWritten(hs, filter, all)
  {
    var res: seq<Hardware> := [];
    var i := 0;
    assert hs[0..] == hs;
    while i < |hs|
      invariant 0 <= i <= |hs|
      invariant Matches(hs, filter) == res + Matches(hs[i..], filter)
      invariant !all ==> res == []
    {
      MatchesAt(hs, filter, i);
      if filter(hs[i]) {
        if !all {
          return One(hs[i]);
        }
        HardwareAssoc(res, [hs[i]], Matches(hs[i + 1..], filter));
        res := res + [hs[i]];
      } else {
        assert Matches(hs[i..], filter) == Matches(hs[i + 1..], filter);
      }
      i := i + 1;
    }
    assert hs[i..] == [];
    r := Many(res);
  }

  /** The matches from position i on. */
  lemma MatchesAt(hs: seq<Hardware>, filter: Hardware -> bool, i: nat)
    requires i < |hs|
    ensures filter(hs[i]) ==> Matches(hs[i..], filter) == [hs[i]] + Matches(hs[i + 1..], filter)
    ensures !filter(hs[i]) ==> Matches(hs[i..], filter) == Matches(hs[i + 1..], filter)
  {
    assert hs[i..][0] == hs[i] && hs[i..][1..] == hs[i + 1..];
    assert [] + Matches(hs[i + 1..], filter) == Matches(hs[i + 1..], filter);
  }

  lemma HardwareAssoc(a: seq<Hardware>, b: seq<Hardware>, c: seq<Hardware>)
    ensures a + (b + c) == (a + b) + c
  {
  }

  /** The evidently intended `get_hardware(all=False)`: the first match, or
      `None`. */
  function GetHardware(hs: seq<Hardware>, filter: Hardware -> bool): (r: Option<Hardware>)
    ensures r.None? <==> forall k | 0 <= k < |hs| :: !filter(hs[k])
    ensures r.Some? ==> exists i | 0 <= i < |hs| ::
      hs[i] == r.value && filter(hs[i]) && forall k | 0 <= k < i :: !filter(hs[k])
  {
    FirstMatch(hs, filter);
    var m := Matches(hs, filter);
    if m == [] then None else Some(m[0])
  }

  function IsKind(t: HardwareType): Hardware -> bool {
    (h: Hardware) => h.kind == t
  }

  /** A load sensor named `GPU Core...`: how the GPU fallback recognises a card. */
  predicate HasGpuCoreLoad(h: Hardware) {
    exists k | 0 <= k < |h.sensors| :: h.sensors[k].kind == Load && StartsWith(h.sensors[k].name, "GPU Core")
  }

  /** The default GPU as written: since the NVIDIA lookup yields `[]` rather
      than `None` when there is no NVIDIA card, the `hw is None` fallbacks
      never run and the result is that empty list. */
  function DefaultGpuAsWritten(hs: seq<Hardware>): Found {
    GetHardwareAsWritten(hs, IsKind(GpuNvidia), false)
  }

  /** The fallback chain the code evidently intends: NVIDIA, else the first
      AMD card, else the first device with a `GPU Core` load sensor, else
      Intel. */
  function DefaultGpu(hs: seq<Hardware>): Option<Hardware> {
    var nvidia := GetHardware(hs, IsKind(GpuNvidia));
    if nvidia.Some? then nvidia
    else
      var amd := Matches(hs, IsKind(GpuAmd));
      if |amd| > 0 then Some(amd[0])
      else
        var named := GetHardware(hs, HasGpuCoreLoad);
        if named.Some? then named else GetHardware(hs, IsKind(GpuIntel))
  }

  /** A machine with only an AMD card: the code as written reports no card
      (an empty list), the intended chain finds the AMD card. */
  lemma AsWrittenIgnoresAmd(amd: Hardware)
    requires amd.kind == GpuAmd
    ensures DefaultGpuAsWritten([amd]) == Many([])
    ensures DefaultGpu([amd]) == Some(amd)
  {
    assert Matches([amd], IsKind(GpuNvidia)) == [] by {
      assert [amd][1..] == [];
    }
    assert Matches([amd], IsKind(GpuAmd)) == [amd] by {
      assert [amd][1..] == [];
    }
  }

  /** The intended chain, step by step: the first NVIDIA card; without one
      the first AMD card; without either the first device with a `GPU Core`
      load sensor; otherwise the first Intel device, or none. */
  lemma DefaultGpuPriority(hs: seq<Hardware>)
    ensures (exists k | 0 <= k < |hs| :: hs[k].kind == GpuNvidia) ==>
      DefaultGpu(hs) == GetHardware(hs, IsKind(GpuNvidia))
    ensures (forall k | 0 <= k < |hs| :: hs[k].kind != GpuNvidia) && (exists k | 0 <= k < |hs| :: hs[k].kind == GpuAmd) ==>
      DefaultGpu(hs) == GetHardware(hs, IsKind(GpuAmd))
    ensures (forall k | 0 <= k < |hs| :: hs[k].kind != GpuNvidia && hs[k].kind != GpuAmd) && (exists k | 0 <= k < |hs| :: HasGpuCoreLoad(hs[k])) ==>
      DefaultGpu(hs) == GetHardware(hs, HasGpuCoreLoad)
    ensures (forall k | 0 <= k < |hs| :: hs[k].kind != GpuNvidia && hs[k].kind != GpuAmd && !HasGpuCoreLoad(hs[k])) ==>
      DefaultGpu(hs) == GetHardware(hs, IsKind(GpuIntel))
    ensures DefaultGpu(hs).None? <==>
      forall k | 0 <= k < |hs| :: hs[k].kind !in {GpuNvidia, GpuAmd, GpuIntel} && !HasGpuCoreLoad(hs[k])
  {
    var nvidia := GetHardware(hs, IsKind(GpuNvidia));
    var amd := Matches(hs, IsKind(GpuAmd));
    FirstMatch(hs, IsKind(GpuAmd));
    assert nvidia.None? <==> forall k | 0 <= k < |hs| :: hs[k].kind != GpuNvidia by {
      forall k | 0 <= k < |hs| ensures IsKind(GpuNvidia)(hs[k]) <==> hs[k].kind == GpuNvidia { }
    }
    assert |amd| == 0 <==> forall k | 0 <= k < |hs| :: hs[k].kind != GpuAmd by {
      assert GetHardware(hs, IsKind(GpuAmd)).None? <==> |amd| == 0;
      forall k | 0 <= k < |hs| ensures IsKind(GpuAmd)(hs[k]) <==> hs[k].kind == GpuAmd { }
    }
    assert GetHardware(hs, IsKind(GpuIntel)).None? <==> forall k | 0 <= k < |hs| :: hs[k].kind != GpuIntel by {
      forall k | 0 <= k < |hs| ensures IsKind(GpuIntel)(hs[k]) <==> hs[k].kind == GpuIntel { }
    }
  }

  // ---------------------------------------------------------------------------
  // CPU sensors

  /** `tmp_temperature_sensors`, a dictionary keyed by sensor name in
      insertion order. */
  type NamedSensors = seq<(string, Sensor)>

  predicate UniqueNames(d: NamedSensors) {
    forall i, j | 0 <= i < j < |d| :: d[i].0 != d[j].0
  }

  /** The dictionary's keys. */
  function Names(d: NamedSensors): set<string> {
    set m | 0 <= m < |d| :: d[m].0
  }

  /** `d[name] = s`: an existing name keeps its place and takes the new
      sensor, a new name goes to the end, every other entry stays. */
  function Store(d: NamedSensors, name: string, s: Sensor): (r: NamedSensors)
    requires UniqueNames(d)
    ensures UniqueNames(r)
    ensures Names(r) == Names(d) + {name}
    ensures name in Names(d) ==> |r| == |d|
    ensures name !in Names(d) ==> r == d + [(name, s)]
    ensures forall m | 0 <= m < |d| && d[m].0 != name :: r[m] == d[m]
    ensures forall m | 0 <= m < |r| :: r[m] == (name, s) || (m < |d| && r[m] == d[m])
    ensures exists i | 0 <= i < |r| :: r[i] == (name, s)
  {
    if name in Names(d) then
      var i :| 0 <= i < |d| && d[i].0 == name;
      var r := d[i := (name, s)];
      assert r[i] == (name, s);
      forall x | x in Names(d) + {name} ensures x in Names(r) {
        if x == name {
          assert r[i].0 == x;
        } else {
          var m :| 0 <= m < |d| && d[m].0 == x;
          assert r[m].0 == x;
        }
      }
      forall x | x in Names(r) ensures x in Names(d) + {name} {
        var m :| 0 <= m < |r| && r[m].0 == x;
        if m != i {
          assert d[m].0 == x;
        }
      }
      r
    else
      var r := d + [(name, s)];
      assert r[|d|] == (name, s);
      forall x | x in Names(d) + {name} ensures x in Names(r) {
        if x == name {
          assert r[|d|].0 == x;
        } else {
          var m :| 0 <= m < |d| && d[m].0 == x;
          assert r[m].0 == x;
        }
      }
      forall x | x in Names(r) ensures x in Names(d) + {name} {
        var m :| 0 <= m < |r| && r[m].0 == x;
        if m < |d| {
          assert d[m].0 == x;
        }
      }
      r
  }

  predicate IsPriority(name: string) {
    StartsWith(name, "Core Average") || StartsWith(name, "Core Max") || StartsWith(name, "CPU Package")
  }

  /** The temperature scan from entry `i`, with the `Core...` candidate found
      so far: the first priority name wins and stops the scan, otherwise the
      last `Core...` name stays. */
  function PickTemperature(d: NamedSensors, i: nat, candidate: Option<Sensor>): Option<Sensor>
    requires i <= |d|
    decreases |d| - i
  {
    if i == |d| then candidate
    else if IsPriority(d[i].0) then Some(d[i].1)
    else PickTemperature(d, i + 1, if StartsWith(d[i].0, "Core") then Some(d[i].1) else candidate)
  }

  /** With a priority name present, the first one is chosen. */
  lemma {:induction false} PriorityWins(d: NamedSensors, i: nat, candidate: Option<Sensor>, j: nat)
    requires i <= j < |d| && IsPriority(d[j].0)
    requires forall k | i <= k < j :: !IsPriority(d[k].0)
    ensures PickTemperature(d, i, candidate) == Some(d[j].1)
    decreases j - i
  {
    if i < j {
      PriorityWins(d, i + 1, if StartsWith(d[i].0, "Core") then Some(d[i].1) else candidate, j);
    }
  }

  /** Without a priority name, the last `Core...` name is chosen, or none. */
  lemma {:induction false} LastCoreWins(d: NamedSensors, i: nat, candidate: Option<Sensor>)
    requires i <= |d|
    requires forall k | i <= k < |d| :: !IsPriority(d[k].0)
    ensures var r := PickTemperature(d, i, candidate);
      && ((forall k | i <= k < |d| :: !StartsWith(d[k].0, "Core")) ==> r == candidate)
      && (forall j | i <= j < |d| :: StartsWith(d[j].0, "Core") && (forall k | j < k < |d| :: !StartsWith(d[k].0, "Core"))
            ==> r == Some(d[j].1))
    decreases |d| - i
  {
    if i < |d| {
      var c' := if StartsWith(d[i].0, "Core") then Some(d[i].1) else candidate;
      LastCoreWins(d, i + 1, c');
    }
  }

  /** The sensors `CPU.__init__` keeps. */
  datatype CpuSensors = CpuSensors(load: Option<Sensor>, frequency: seq<Sensor>, temperature: Option<Sensor>)

  predicate IsLoad(s: Sensor) { s.kind == Load && StartsWith(s.name, "CPU Total") }
  predicate IsFrequency(s: Sensor) { s.kind == Clock && Contains(s.name, "Core #") && !Contains(s.name, "Effective") }

  /** The `CPU Total` load sensor the scan keeps: each one found replaces
      the previous. */
  function LastLoad(ss: seq<Sensor>): Option<Sensor> {
    if ss == [] then None
    else if IsLoad(ss[|ss| - 1]) then Some(ss[|ss| - 1])
    else LastLoad(ss[..|ss| - 1])
  }

  /** The kept load sensor exists iff some sensor is a `CPU Total` load, and
      it is the last of them. */
  lemma {:induction false} LastLoadIsLast(ss: seq<Sensor>)
    ensures LastLoad(ss).Some? <==> exists k | 0 <= k < |ss| :: IsLoad(ss[k])
    ensures LastLoad(ss).Some? ==> exists k | 0 <= k < |ss| ::
      ss[k] == LastLoad(ss).value && IsLoad(ss[k]) && forall m | k < m < |ss| :: !IsLoad(ss[m])
  {
    if ss != [] && !IsLoad(ss[|ss| - 1]) {
      var p := ss[..|ss| - 1];
      LastLoadIsLast(p);
      assert forall k | 0 <= k < |p| :: ss[k] == p[k];
      if LastLoad(p).Some? {
        var k :| 0 <= k < |p| && p[k] == LastLoad(p).value && IsLoad(p[k]) && forall m | k < m < |p| :: !IsLoad(p[m]);
        assert ss[k] == LastLoad(ss).value && IsLoad(ss[k]) && forall m | k < m < |ss| :: !IsLoad(ss[m]);
      }
    }
  }

  /** The `Core #` clock sensors (without `Effective`), in scan order. */
  function FrequencySensors(ss: seq<Sensor>): (r: seq<Sensor>)
    ensures forall k | 0 <= k < |r| :: IsFrequency(r[k]) && r[k] in ss
    ensures forall k | 0 <= k < |ss| :: IsFrequency(ss[k]) ==> ss[k] in r
  {
    if ss == [] then []
    else
      var p := FrequencySensors(ss[..|ss| - 1]);
      var s := ss[|ss| - 1];
      assert forall k | 0 <= k < |ss| - 1 :: ss[k] == ss[..|ss| - 1][k];
      p + if IsFrequency(s) then [s] else []
  }

  /** `tmp_temperature_sensors` after the scan: every temperature sensor
      stored under its name, in scan order. */
  function TemperatureTable(ss: seq<Sensor>): (r: NamedSensors)
    ensures UniqueNames(r)
    ensures forall k | 0 <= k < |r| :: r[k].1.kind == Temperature && r[k].0 == r[k].1.name
    ensures forall k | 0 <= k < |ss| :: ss[k].kind == Temperature ==> ss[k].name in Names(r)
  {
    if ss == [] then []
    else
      var d := TemperatureTable(ss[..|ss| - 1]);
      var s := ss[|ss| - 1];
      assert forall k | 0 <= k < |ss| - 1 :: ss[k] == ss[..|ss| - 1][k];
      if s.kind == Temperature then Store(d, s.name, s) else d
  }

  /** A name read by several temperature sensors holds the last of them. */
  lemma {:induction false} TemperatureTableLast(ss: seq<Sensor>, k: int)
    requires 0 <= k < |ss| && ss[k].kind == Temperature
    requires forall m | k < m < |ss| :: ss[m].kind == Temperature ==> ss[m].name != ss[k].name
    ensures exists i | 0 <= i < |TemperatureTable(ss)| :: TemperatureTable(ss)[i] == (ss[k].name, ss[k])
  {
    var p := ss[..|ss| - 1];
    var s := ss[|ss| - 1];
    var d := TemperatureTable(p);
    if k < |ss| - 1 {
      assert p[k] == ss[k];
      assert forall m | k < m < |p| :: p[m] == ss[m];
      TemperatureTableLast(p, k);
      var i :| 0 <= i < |d| && d[i] == (ss[k].name, ss[k]);
      if s.kind == Temperature {
        var r := Store(d, s.name, s);
        assert TemperatureTable(ss) == r;
        assert d[i].0 != s.name;
        assert r[i] == d[i];
      } else {
        assert TemperatureTable(ss) == d;
      }
    } else {
      assert TemperatureTable(ss) == Store(d, s.name, s);
    }
  }

  /** Two `Core #` sensors and no priority name: the later one is chosen. */
  lemma LaterCoreChosen(a: Sensor, b: Sensor)
    requires a.kind == Temperature && a.name == "Core #1"
    requires b.kind == Temperature && b.name == "Core #2"
    ensures PickTemperature(TemperatureTable([a, b]), 0, None) == Some(b)
  {
    var d: NamedSensors := [("Core #1", a), ("Core #2", b)];
    TwoCoreTable(a, b);
    CoreNamesPlain();
    assert PickTemperature(d, 2, Some(b)) == Some(b);
  }

  lemma TwoCoreTable(a: Sensor, b: Sensor)
    requires a.kind == Temperature && a.name == "Core #1"
    requires b.kind == Temperature && b.name == "Core #2"
    ensures TemperatureTable([a, b]) == [("Core #1", a), ("Core #2", b)]
  {
    var d1: NamedSensors := [("Core #1", a)];
    assert "Core #1" != "Core #2" by {
      assert "Core #1"[6] != "Core #2"[6];
    }
    assert TemperatureTable([a]) == d1 by {
      assert [a][..0] == [];
      assert Names([]) == {};
    }
    assert [a, b][..1] == [a];
    assert Names(d1) == {"Core #1"};
  }

  lemma CoreNamesPlain()
    ensures !IsPriority("Core #1") && !IsPriority("Core #2")
    ensures StartsWith("Core #1", "Core") && StartsWith("Core #2", "Core")
  {
    assert "Core #1"[5] != "Core Average"[5] && "Core #1"[5] != "Core Max"[5] && "Core #1"[1] != "CPU Package"[1];
    assert "Core #2"[5] != "Core Average"[5] && "Core #2"[5] != "Core Max"[5] && "Core #2"[1] != "CPU Package"[1];
  }

  /** The classification loop of `CPU.__init__` over the CPU's sensors,
      followed by the temperature scan. */
  method ClassifyCpuSensors(sensors: seq<Sensor>) returns (r: CpuSensors, temps: NamedSensors)
    ensures r.load == LastLoad(sensors)
    ensures r.frequency == FrequencySensors(sensors)
    ensures temps == TemperatureTable(sensors)
    ensures r.temperature == PickTemperature(temps, 0, None)
  {
    var load: Option<Sensor> := None;
    var frequency: seq<Sensor> := [];
    temps := [];
    for i := 0 to |sensors|
      invariant load == LastLoad(sensors[..i])
      invariant frequency == FrequencySensors(sensors[..i])
      invariant temps == TemperatureTable(sensors[..i])
    {
      var s := sensors[i];
      if IsLoad(s) {
        load := Some(s);
      }
      if IsFrequency(s) {
        frequency := frequency + [s];
      }
      if s.kind == Temperature {
        temps := Store(temps, s.name, s);
      }
      ScanStep(sensors, i);
    }
    assert sensors[..|sensors|] == sensors;
    var temperature := PickTemperatureLoop(temps);
    r := CpuSensors(load, frequency, temperature);
  }

  /** One more sensor extends both in-order scans by that sensor. */
  lemma ScanStep(sensors: seq<Sensor>, i: int)
    requires 0 <= i < |sensors|
    ensures LastLoad(sensors[..i + 1]) == if IsLoad(sensors[i]) then Some(sensors[i]) else LastLoad(sensors[..i])
    ensures FrequencySensors(sensors[..i + 1])
         == FrequencySensors(sensors[..i]) + if IsFrequency(sensors[i]) then [sensors[i]] else []
    ensures TemperatureTable(sensors[..i + 1])
         == var d := TemperatureTable(sensors[..i]);
            if sensors[i].kind == Temperature then Store(d, sensors[i].name, sensors[i]) else d
  {
    assert sensors[..i + 1][..i] == sensors[..i];
  }

  /** The `for name, sensor in tmp_temperature_sensors.items()` loop. */
  method PickTemperatureLoop(d: NamedSensors) returns (r: Option<Sensor>)
    ensures r == PickTemperature(d, 0, None)
  {
    r := None;
    var i := 0;
    while i < |d|
      invariant 0 <= i <= |d|
      invariant PickTemperature(d, i, r) == PickTemperature(d, 0, None)
    {
      var (name, sensor) := d[i];
      if StartsWith(name, "Core Average") || StartsWith(name, "Core Max") || StartsWith(name, "CPU Package") {
        return Some(sensor);
      }
      if StartsWith(name, "Core") {
        r := Some(sensor);
      }
      i := i + 1;
    }
  }

  // ---------------------------------------------------------------------------
  // Net

  const VirtualInterfaces: seq<string> :=
    ["lo", "Loopback", "isatap", "Teredo", "VPN", "Virtual", "vEthernet", "VBox", "Hyper-V", "Docker"]

  /** `any(v.lower() in name.lower() for v in vs)`. */
  function AnyOccurs(name: string, vs: seq<string>): (r: bool)
    ensures r <==> exists i | 0 <= i < |vs| :: Contains(Lower(name), Lower(vs[i]))
  {
    if vs == [] then false
    else Contains(Lower(name), Lower(vs[0])) || AnyOccurs(name, vs[1..])
  }

  /** `__filter_interface`: kept iff no virtual-interface word occurs in the
      name, ignoring case. */
  function FilterInterface(name: string): bool {
    !AnyOccurs(name, VirtualInterfaces)
  }

  /** An interface is kept iff no virtual-interface word occurs in its name,
      ignoring case. */
  lemma FilterInterfaceKeeps(name: string)
    ensures FilterInterface(name) <==>
      forall i | 0 <= i < |VirtualInterfaces| :: !Contains(Lower(name), Lower(VirtualInterfaces[i]))
  {
  }

  /** A Docker bridge is dropped whatever follows the word. */
  lemma DockerDropped()
    ensures !FilterInterface("Docker0")
  {
    assert VirtualInterfaces[9] == "Docker";
    assert Lower("Docker") == "docker";
    assert Lower("Docker0") == "docker0";
    assert OccursAt("docker0", "docker", 0);
  }

  /** The filter ignores case. */
  lemma {:induction false} FilterIgnoresCase(a: string, b: string)
    requires Lower(a) == Lower(b)
    ensures FilterInterface(a) == FilterInterface(b)
  {
  }

  /** Per-interface counters. */
  datatype Counters = Counters(bytesSent: nat, bytesRecv: nat)
  datatype Attr = BytesSent | BytesRecv

  function Get(c: Counters, attr: Attr): nat {
    match attr
    case BytesSent => c.bytesSent
    case BytesRecv => c.bytesRecv
  }

  /** The counter delta; after a reset (the counter went down) the current
      value itself is the delta. */
  function Delta(curr: nat, prev: nat): (d: nat)
    ensures d <= curr
    ensures curr >= prev ==> d + prev == curr
  {
    if curr >= prev then curr - prev else curr
  }

  /** `psutil.net_io_counters(pernic=True)`: interfaces in the order the
      dictionary iterates them. */
  type Stats = seq<(string, Counters)>

  function Lookup(s: Stats, name: string): Option<Counters> {
    if s == [] then None else if s[0].0 == name then Some(s[0].1) else Lookup(s[1..], name)
  }

  /** The deltas of the interfaces `keep` lets through (`Net` passes
      `FilterInterface`), in order: `None` when one of them is missing from
      the previous sample (`KeyError`). */
  function Deltas(current: Stats, last: Stats, attr: Attr, keep: string -> bool): (r: Option<seq<nat>>)
    decreases |current|
  {
    if current == [] then Some([])
    else
      var rest := Deltas(current[1..], last, attr, keep);
      var (name, c) := current[0];
      if !keep(name) then rest
      else
        var p := Lookup(last, name);
        if p.None? then None else Prefixed([Delta(Get(c, attr), Get(p.value, attr))], rest)
  }

  /** `valid` followed by the deltas still to come, unless one raises. */
  function Prefixed(valid: seq<nat>, rest: Option<seq<nat>>): Option<seq<nat>> {
    if rest.None? then None else Some(valid + rest.value)
  }

  lemma PrefixedAppend(valid: seq<nat>, d: nat, rest: Option<seq<nat>>)
    ensures Prefixed(valid, Prefixed([d], rest)) == Prefixed(valid + [d], rest)
  {
    if rest.Some? {
      assert valid + ([d] + rest.value) == (valid + [d]) + rest.value;
    }
  }

  /** One step of the sum from position `i`. */
  lemma DeltasAt(current: Stats, last: Stats, attr: Attr, keep: string -> bool, i: nat)
    requires i < |current|
    ensures Deltas(current[i..], last, attr, keep) ==
      var (name, c) := current[i];
      var rest := Deltas(current[i + 1..], last, attr, keep);
      if !keep(name) then rest
      else
        var p := Lookup(last, name);
        if p.None? then None else Prefixed([Delta(Get(c, attr), Get(p.value, attr))], rest)
  {
    assert current[i..][0] == current[i] && current[i..][1..] == current[i + 1..];
  }

  function Sum(xs: seq<nat>): nat {
    if xs == [] then 0 else xs[0] + Sum(xs[1..])
  }

  /** What `__calculate_speed` does. */
  datatype Speed = RaisesKeyError | Rate(bytesPerSecond: real)

  function CalculateSpeed(current: Stats, last: Stats, attr: Attr, keep: string -> bool, timeDiff: real): Speed {
    match Deltas(current, last, attr, keep)
    case None => RaisesKeyError
    case Some(ds) => if ds == [] || timeDiff <= 0.0 then Rate(0.0) else Rate(Sum(ds) as real / timeDiff)
  }

  /** The rate is never negative; it is zero when no interface is kept or the
      sampling interval is not positive. */
  lemma CalculateSpeedBounds(current: Stats, last: Stats, attr: Attr, keep: string -> bool, timeDiff: real)
    ensures CalculateSpeed(current, last, attr, keep, timeDiff).Rate? ==> CalculateSpeed(current, last, attr, keep, timeDiff).bytesPerSecond >= 0.0
    ensures timeDiff <= 0.0 && Deltas(current, last, attr, keep).Some? ==> CalculateSpeed(current, last, attr, keep, timeDiff) == Rate(0.0)
    ensures (forall i | 0 <= i < |current| :: !keep(current[i].0)) ==>
      CalculateSpeed(current, last, attr, keep, timeDiff) == Rate(0.0)
  {
    if forall i | 0 <= i < |current| :: !keep(current[i].0) {
      NoneKept(current, last, attr, keep);
    }
    var ds := Deltas(current, last, attr, keep);
    if ds.Some? && ds.value != [] && timeDiff > 0.0 {
      QuotientNonNegative(Sum(ds.value) as real, timeDiff);
    }
  }

  lemma QuotientNonNegative(a: real, b: real)
    requires a >= 0.0 && b > 0.0
    ensures a / b >= 0.0
  {
    assert a / b * b == a;
  }

  lemma {:induction false} NoneKept(current: Stats, last: Stats, attr: Attr, keep: string -> bool)
    requires forall i | 0 <= i < |current| :: !keep(current[i].0)
    ensures Deltas(current, last, attr, keep) == Some([])
    decreases |current|
  {
    if current != [] {
      assert forall i | 0 <= i < |current[1..]| :: !keep(current[1..][i].0) by {
        forall i | 0 <= i < |current[1..]| ensures !keep(current[1..][i].0) {
          assert current[1..][i] == current[i + 1];
        }
      }
      NoneKept(current[1..], last, attr, keep);
    }
  }

  /** A kept interface missing from the previous sample raises, and a
      virtual one is never looked at. */
  lemma {:induction false} MissingInterfaceRaises(current: Stats, last: Stats, attr: Attr, keep: string -> bool, i: nat)
    requires i < |current| && keep(current[i].0) && Lookup(last, current[i].0).None?
    ensures Deltas(current, last, attr, keep).None?
    decreases i
  {
    if i > 0 {
      assert current[1..][i - 1] == current[i];
      MissingInterfaceRaises(current[1..], last, attr, keep, i - 1);
    }
  }

  /** A counter that went backwards counts from zero; one that did not
      counts its growth. */
  lemma CounterResetExample()
    ensures Delta(100, 40) == 60 && Delta(5, 4000) == 5
  {
  }

  const SpeedLimit: real := 1000000000.0

  /** `upload_speed`/`download_speed` after the raw rate: a rate in [0, 1e9]
      becomes the new valid value (truncated to an integer), anything else
      keeps the previous one. */
  function Validated(lastValid: int, raw: real): (r: int)
    ensures 0.0 <= raw <= SpeedLimit ==> r == raw.Floor
    ensures !(0.0 <= raw <= SpeedLimit) ==> r == lastValid
    ensures 0 <= lastValid <= 1000000000 ==> 0 <= r <= 1000000000
  {
    if 0.0 <= raw <= SpeedLimit then raw.Floor else lastValid
  }

  /** The network sensor's state between samples. */
  class Net {
    var lastStats: Stats
    var currentStats: Stats
    var timeDiff: real
    var lastValidUpload: int
    var lastValidDownload: int

    /** Both samples start as the first reading, so the first speeds are 0. */
    constructor (initial: Stats)
      ensures lastStats == initial && currentStats == initial && timeDiff == 0.0
      ensures lastValidUpload == 0 && lastValidDownload == 0
      ensures Valid()
    {
      lastStats := initial;
      currentStats := initial;
      timeDiff := 0.0;
      lastValidUpload := 0;
      lastValidDownload := 0;
    }

    /** The cached speeds are always within the accepted range. */
    predicate Valid()
      reads this
    {
      0 <= lastValidUpload <= 1000000000 && 0 <= lastValidDownload <= 1000000000
    }

    /** `update`: the new reading and the elapsed time are inputs. */
    method Update(reading: Stats, elapsed: real)
      modifies this`lastStats, this`currentStats, this`timeDiff
      ensures lastStats == old(currentStats) && currentStats == reading && timeDiff == elapsed
    {
      timeDiff := elapsed;
      lastStats := currentStats;
      currentStats := reading;
    }

    /** The loop of `__calculate_speed`. */
    method CalculateSpeedLoop(current: Stats, last: Stats, attr: Attr, keep: string -> bool) returns (r: Speed)
      ensures r == CalculateSpeed(current, last, attr, keep, timeDiff)
    {
      var valid: seq<nat> := [];
      var i := 0;
      assert current[0..] == current;
      if Deltas(current, last, attr, keep).Some? {
        assert [] + Deltas(current, last, attr, keep).value == Deltas(current, last, attr, keep).value;
      }
      while i < |current|
        invariant 0 <= i <= |current|
        invariant Deltas(current, last, attr, keep) == Prefixed(valid, Deltas(current[i..], last, attr, keep))
      {
        DeltasAt(current, last, attr, keep, i);
        var (name, c) := current[i];
        if keep(name) {
          var p := Lookup(last, name);
          if p.None? {
            return RaisesKeyError;
          }
          var d := Delta(Get(c, attr), Get(p.value, attr));
          PrefixedAppend(valid, d, Deltas(current[i + 1..], last, attr, keep));
          valid := valid + [d];
        }
        i := i + 1;
      }
      assert current[|current|..] == [];
      assert valid + [] == valid;
      assert Deltas(current, last, attr, keep) == Some(valid);
      if valid == [] || timeDiff <= 0.0 {
        return Rate(0.0);
      }
      var total := SumLoop(valid);
      r := Rate(total as real / timeDiff);
    }

    /** `upload_speed`; `None` stands for the `KeyError`. */
    method UploadSpeed() returns (r: Option<int>)
      requires Valid()
      modifies this`lastValidUpload
      ensures Valid()
      ensures var raw := CalculateSpeed(currentStats, lastStats, BytesSent, FilterInterface, timeDiff);
        && (raw.RaisesKeyError? ==> r.None? && lastValidUpload == old(lastValidUpload))
        && (raw.Rate? ==> lastValidUpload == Validated(old(lastValidUpload), raw.bytesPerSecond) && r == Some(lastValidUpload))
    {
      var raw := CalculateSpeedLoop(currentStats, lastStats, BytesSent, FilterInterface);
      if raw.RaisesKeyError? {
        return None;
      }
      if 0.0 <= raw.bytesPerSecond <= SpeedLimit {
        lastValidUpload := raw.bytesPerSecond.Floor;
      }
      r := Some(lastValidUpload);
    }

    /** `download_speed`. */
    method DownloadSpeed() returns (r: Option<int>)
      requires Valid()
      modifies this`lastValidDownload
      ensures Valid()
      ensures var raw := CalculateSpeed(currentStats, lastStats, BytesRecv, FilterInterface, timeDiff);
        && (raw.RaisesKeyError? ==> r.None? && lastValidDownload == old(lastValidDownload))
        && (raw.Rate? ==> lastValidDownload == Validated(old(lastValidDownload), raw.bytesPerSecond) && r == Some(lastValidDownload))
    {
      var raw := CalculateSpeedLoop(currentStats, lastStats, BytesRecv, FilterInterface);
      if raw.RaisesKeyError? {
        return None;
      }
      if 0.0 <= raw.bytesPerSecond <= SpeedLimit {
        lastValidDownload := raw.bytesPerSecond.Floor;
      }
      r := Some(lastValidDownload);
    }
  }

  /** `sum(valid_stats)`. */
  method SumLoop(xs: seq<nat>) returns (s: nat)
    ensures s == Sum(xs)
  {
    s := 0;
    var i := |xs|;
    while i > 0
      invariant 0 <= i <= |xs|
      invariant s == Sum(xs[i..])
    {
      i := i - 1;
      assert xs[i..][1..] == xs[i + 1..];
      s := s + xs[i];
    }
    assert xs[0..] == xs;
  }
}
