/**
 * The EPICS device support `devTempMon` for ai records: init_record parses
 * the INST_IO selector and binds the record to the discovered hwmon entry;
 * read_ai delivers the raw millidegree value into RVAL, or marks the record
 * undefined with an invalid communication alarm when nothing was bound.
 */
module DevTempMon {
  import opened Sysfs
  import opened Payload
  import opened Drivers
  import opened Hwmon

  /** What an ai record asks for: `CPU_TEMP`, `CPU_MAX_TEMP` or `CPU_CRIT_TEMP`. */
  datatype ChannelKind = CpuTemp | CpuMaxTemp | CpuCritTemp

  /** The INST_IO string that selects each kind. */
  function SelectorText(k: ChannelKind): string
  {
    match k
    case CpuTemp => "CPU_TEMP"
    case CpuMaxTemp => "CPU_MAX_TEMP"
    case CpuCritTemp => "CPU_CRIT_TEMP"
  }

  /** The selector of temp_init_record: one of three exact strings, anything else rejected. */
  function ParseSelector(link: string): (r: Option<ChannelKind>)
    ensures r.Some? ==> SelectorText(r.value) == link
    ensures r.None? ==> forall k: ChannelKind :: SelectorText(k) != link
  {
    if link == "CPU_TEMP" then Some(CpuTemp)
    else if link == "CPU_MAX_TEMP" then Some(CpuMaxTemp)
    else if link == "CPU_CRIT_TEMP" then Some(CpuCritTemp)
    else None
  }

  /** Every kind is accepted back from its own selector text. */
  lemma SelectorRoundTrip(k: ChannelKind)
    ensures ParseSelector(SelectorText(k)) == Some(k)
  {
  }

  /** What init_record returns: 0, or S_dev_badInpType. */
  datatype DevStatus = DevOk | BadInpType

  /** `struct temp_mon_dpvt`: the kind asked for and the entry bound to. */
  datatype Dpvt = Dpvt(kind: ChannelKind, ops: TempOps)

  /** Alarm severities (NO_ALARM .. INVALID_ALARM) and the COMM_ALARM status. */
  type Severity = x: nat | x <= 3
  const NoAlarm: Severity := 0
  const InvalidAlarm: Severity := 3
  const CommAlarm: nat := 9

  /** RVAL is an `epicsInt32`: the 32-bit value is reinterpreted in two's complement. */
  function ToInt32(v: U32): (r: int)
    ensures -0x8000_0000 <= r < 0x8000_0000
    ensures r % U32Limit == v
    ensures v < 0x8000_0000 ==> r == v
  {
    if v < 0x8000_0000 then v else v - U32Limit
  }

  /** The value a read delivers for `kind` from a state in view `s`, the sysfs tree being `now`. */
  function Reading(kind: ChannelKind, now: Tree, s: StateView): int
  {
    match kind
    case CpuTemp => ToInt32(PollValue(now, s))
    case CpuMaxTemp => ToInt32(s.cpuMax)
    case CpuCritTemp => ToInt32(s.cpuCrit)
  }

  /**
   * End to end: an input file that holds the kernel's decimal text for a
   * temperature below 2^31 millidegrees reads back as that temperature.
   */
  lemma TemperatureRoundTrip(now: Tree, s: StateView, n: nat)
    requires n < 0x8000_0000
    requires s.openFile.Some?
    requires InputFile(now, s.openFile.value.inst, s.openFile.value.ch) == Present(DecimalDigits(n) + "\n")
    ensures Reading(CpuTemp, now, s) == n
  {
    PayloadRoundTrip(n, PollCap);
  }

  /**
   * A sensor below zero: an input file holding "-5000\n" reads as RVAL
   * -5000, through strtoul's negation and the 32-bit store.
   */
  lemma NegativeTemperature(now: Tree, s: StateView)
    requires s.openFile.Some?
    requires InputFile(now, s.openFile.value.inst, s.openFile.value.ch) == Present("-5000\n")
    ensures Reading(CpuTemp, now, s) == -5000
  {
    NegativeExample();
  }

  /**
   * k10temp and cpu_thermal publish fixed thresholds: once their init has
   * run, the max and crit readings are 100000 and 110000 whatever the tree.
   */
  lemma FixedThresholdReadings(d: Driver, t: Tree, inst: nat, freeFd: nat, s: StateView, now: Tree)
    requires d != Coretemp
    ensures var v := InitOutcome(d, t, inst, freeFd, s).1;
      Reading(CpuMaxTemp, now, v) == 100000 && Reading(CpuCritTemp, now, v) == 110000
  {
  }

  /** An ai record as this device support sees it. */
  class AiRecord {
    /** INP's INST_IO string. */
    const inp: string
    var dpvt: Option<Dpvt>
    var rval: int
    var udf: bool
    /** The pending alarm status and severity (NSTA, NSEV). */
    var nsta: nat
    var nsev: Severity

    constructor (inp: string)
      ensures this.inp == inp && dpvt.None? && rval == 0 && udf
      ensures nsta == 0 && nsev == NoAlarm
    {
      this.inp := inp;
      dpvt := None;
      rval := 0;
      udf := true;
      nsta := 0;
      nsev := NoAlarm;
    }

    /**
     * temp_init_record: an unknown selector is rejected before any
     * discovery; otherwise discovery runs and the record is bound only when
     * it returned 0.  A failed discovery still reports success, so that the
     * database loads.
     */
    method InitRecord(reg: Registry, t: Tree, freeFd: nat) returns (status: DevStatus)
      requires reg.Valid()
      modifies this`dpvt, reg`hwmonType, reg.States()
      ensures status == BadInpType <==> ParseSelector(inp).None?
      ensures ParseSelector(inp).None? ==>
        dpvt == old(dpvt) && reg.hwmonType == old(reg.hwmonType) && unchanged(reg.States())
      ensures ParseSelector(inp).Some? ==>
        var r := old(reg.OpsInitResult(t, freeFd));
        (r.0 != 0 ==> dpvt == old(dpvt)) &&
        (r.0 == 0 ==> dpvt == Some(Dpvt(ParseSelector(inp).value, reg.table[r.1.value])))
      // the registry changes as one discovery changes it
      ensures ParseSelector(inp).Some? && Discover(t).None? ==>
        reg.hwmonType == old(reg.hwmonType) && unchanged(reg.States())
      ensures ParseSelector(inp).Some? && Discover(t).Some? ==>
        var m := Discover(t).value;
        var st := reg.table[m.entry].state;
        (forall k :: 0 <= k < |reg.table| && k != m.entry ==> unchanged(reg.table[k].state)) &&
        (old(st.fd) != 0 ==> reg.hwmonType == old(reg.hwmonType) && unchanged(st)) &&
        (old(st.fd) == 0 ==>
           reg.hwmonType == TableNames[m.entry] && st.hasMutex && st.heldLocks == old(st.heldLocks) &&
           st.View() == InitOutcome(Table[m.entry], t, m.inst, freeFd, old(st.View())).1)
    {
      var kind := ParseSelector(inp);
      if kind.None? {
        return BadInpType;
      }
      var rc, found := reg.OpsInit(t, freeFd);
      if rc < 0 {
        return DevOk;
      }
      dpvt := Some(Dpvt(kind.value, reg.table[found.value]));
      return DevOk;
    }

    /**
     * temp_read_ai: with no binding the record is marked undefined and an
     * INVALID/COMM alarm is raised (recGblSetSevr only raises a severity);
     * otherwise RVAL takes the polled value or the state's threshold.
     */
    method ReadAi(now: Tree) returns (status: int)
      modifies this`rval, this`udf, this`nsta, this`nsev
      modifies if dpvt.Some? then {dpvt.value.ops.state} else {}
      ensures status == 0 && dpvt == old(dpvt)
      ensures dpvt.None? ==>
        udf && nsev == InvalidAlarm && rval == old(rval) &&
        nsta == (if old(nsev) < InvalidAlarm then CommAlarm else old(nsta))
      ensures dpvt.Some? ==>
        var st := dpvt.value.ops.state;
        udf == old(udf) && nsta == old(nsta) && nsev == old(nsev) &&
        st.View() == old(st.View()) && st.hasMutex == old(st.hasMutex) &&
        rval == Reading(dpvt.value.kind, now, st.View()) &&
        st.heldLocks == old(st.heldLocks) +
          (if dpvt.value.kind == CpuTemp && !ReadInput(now, st.View()).Bytes? then 1 else 0)
    {
      if dpvt.None? {
        udf := true;
        if InvalidAlarm > nsev {
          nsta, nsev := CommAlarm, InvalidAlarm;
        }
        return 0;
      }
      var p := dpvt.value;
      if p.kind == CpuTemp {
        var v := p.ops.state.GenericTempRead(now);
        rval := ToInt32(v);
      }
      if p.kind == CpuCritTemp {
        rval := ToInt32(p.ops.state.cpuCrit);
      } else if p.kind == CpuMaxTemp {
        rval := ToInt32(p.ops.state.cpuMax);
      }
      return 0;
    }
  }

  /**
   * A record loaded on a host with no supported hwmon driver: init_record
   * still succeeds, and every read marks it undefined with an invalid alarm.
   */
  method AttachWithoutDriver(t: Tree, now: Tree, freeFd: nat) returns (status: DevStatus, rec: AiRecord)
    requires Discover(t).None?
    ensures status == DevOk && rec.dpvt.None?
    ensures rec.udf && rec.nsev == InvalidAlarm && rec.nsta == CommAlarm
  {
    var reg := new Registry();
    rec := new AiRecord("CPU_TEMP");
    status := rec.InitRecord(reg, t, freeFd);
    var rc := rec.ReadAi(now);
  }

  /**
   * A CPU_MAX_TEMP record bound to a k10temp or cpu_thermal entry on a fresh
   * registry reads the fixed 100000 millidegrees.
   */
  method FixedMaxScenario(t: Tree, now: Tree, freeFd: nat) returns (status: DevStatus, rec: AiRecord)
    requires Discover(t).Some? && Table[Discover(t).value.entry] != Coretemp
    ensures status == DevOk
    ensures rec.dpvt.Some? ==> rec.rval == 100000
  {
    var reg := new Registry();
    rec := new AiRecord("CPU_MAX_TEMP");
    var m := Discover(t).value;
    var st := reg.table[m.entry].state;
    status := rec.InitRecord(reg, t, freeFd);
    if rec.dpvt.Some? {
      FixedThresholdReadings(Table[m.entry], t, m.inst, freeFd, StateView(0, 0, 0, None), now);
      assert st.cpuMax == 100000;
      var rc := rec.ReadAi(now);
    }
  }

  /**
   * Two records attached in turn on a cpu_thermal host whose temp1_input is
   * missing: the first init fails (fd -1) and leaves its record unbound, but
   * the second attach finds fd != 0, skips the init and binds its record.
   */
  method AttachTwiceCpuThermal(t: Tree, inst: nat, freeFd: nat) returns (first: AiRecord, second: AiRecord)
    requires Discover(t) == Some(Match(inst, 2)) && InputFile(t, inst, 1).Missing?
    ensures first.dpvt.None? && second.dpvt.Some?
  {
    var reg := new Registry();
    first := new AiRecord("CPU_TEMP");
    second := new AiRecord("CPU_TEMP");
    var st := reg.table[2].state;
    assert reg.OpsInitResult(t, freeFd) == (-1, Some(2));
    var s1 := first.InitRecord(reg, t, freeFd);
    assert st.fd == -1;
    assert reg.OpsInitResult(t, freeFd) == (0, Some(2));
    var s2 := second.InitRecord(reg, t, freeFd);
  }
}
