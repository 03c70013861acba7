/**
 * The shared driver state and the imperative half of the layer: the
 * `temp_ops[]` table with one `temp_state` per entry, the discovery loop of
 * ops_init, the three init strategies that fill a state in place, and the
 * generic poll of an open descriptor.
 */
module Hwmon {
  import opened Sysfs
  import opened Payload
  import opened Scan
  import opened Drivers

  /** `struct temp_state`: one per table entry, shared by every record bound to it. */
  class TempState {
    var fd: int
    var cpuMax: U32
    var cpuCrit: U32
    /** The input file `fd` is open on; None while it is not open on one. */
    var openFile: Option<ChannelRef>
    /** `mutex` has been created. */
    var hasMutex: bool
    /** Lock acquisitions generic_temp_read returned without releasing. */
    ghost var heldLocks: nat

    function View(): StateView
      reads this
    {
      StateView(fd, cpuMax, cpuCrit, openFile)
    }

    /** The table lives in static storage: every field starts at zero. */
    constructor ()
      ensures View() == StateView(0, 0, 0, None) && !hasMutex && heldLocks == 0
    {
      fd, cpuMax, cpuCrit, openFile := 0, 0, 0, None;
      hasMutex := false;
      heldLocks := 0;
    }

    /** k10temp_init: fixed thresholds, then the first channel labelled exactly "Tctl". */
    method K10tempInit(t: Tree, inst: nat, freeFd: nat) returns (rc: int)
      modifies this`fd, this`cpuMax, this`cpuCrit, this`openFile
      ensures (rc, View()) == InitOutcome(K10temp, t, inst, freeFd, old(View()))
    {
      cpuCrit := DefaultCrit;
      cpuMax := DefaultMax;
      var i := 1;
      while i < ChannelLimit
        invariant 1 <= i <= ChannelLimit
        invariant FirstHit(LabelSteps(t, inst, ExactTctl), i) == LabelScan(t, inst, ExactTctl)
        invariant View() == old(View()).(cpuMax := DefaultMax, cpuCrit := DefaultCrit)
      {
        var text := ReadFile(LabelFile(t, inst, i), LabelCap);
        assert LabelSteps(t, inst, ExactTctl)[i] == LabelStep(t, inst, ExactTctl, i);
        if text.Unopenable? {
          break;
        }
        if text.EmptyRead? {
          i := i + 1;
          continue;
        }
        if Terminated(text.data) == "Tctl" {
          var (nfd, nfile) := OpenInput(t, inst, i, freeFd);
          fd, openFile := nfd, nfile;
          return 0;
        }
        i := i + 1;
      }
      return -1;
    }

    /**
     * coretemp_init: default thresholds, then the first channel whose label
     * starts with "Package id" in any case; its tempN_max and tempN_crit
     * replace the thresholds.
     */
    method CoretempInit(t: Tree, inst: nat, freeFd: nat) returns (rc: int)
      modifies this`fd, this`cpuMax, this`cpuCrit, this`openFile
      ensures (rc, View()) == InitOutcome(Coretemp, t, inst, freeFd, old(View()))
    {
      cpuCrit := DefaultCrit;
      cpuMax := DefaultMax;
      var i := 1;
      while i < ChannelLimit
        invariant 1 <= i <= ChannelLimit
        invariant FirstHit(LabelSteps(t, inst, PackageIdPrefix), i) == LabelScan(t, inst, PackageIdPrefix)
        invariant View() == old(View()).(cpuMax := DefaultMax, cpuCrit := DefaultCrit)
      {
        var text := ReadFile(LabelFile(t, inst, i), LabelCap);
        assert LabelSteps(t, inst, PackageIdPrefix)[i] == LabelStep(t, inst, PackageIdPrefix, i);
        if text.Unopenable? {
          break;
        }
        if text.EmptyRead? {
          i := i + 1;
          continue;
        }
        if CaseInsensitivePrefix("Package id", Terminated(text.data)) {
          var (nfd, nfile) := OpenInput(t, inst, i, freeFd);
          fd, openFile := nfd, nfile;
          cpuMax := SysfsReadUint(MaxFile(t, inst, i));
          cpuCrit := SysfsReadUint(CritFile(t, inst, i));
          return 0;
        }
        i := i + 1;
      }
      return -1;
    }

    /** cpu_thermal_init: fixed thresholds and temp1_input, with no label scan. */
    method CpuThermalInit(t: Tree, inst: nat, freeFd: nat) returns (rc: int)
      modifies this`fd, this`cpuMax, this`cpuCrit, this`openFile
      ensures (rc, View()) == InitOutcome(CpuThermal, t, inst, freeFd, old(View()))
    {
      cpuCrit := DefaultCrit;
      cpuMax := DefaultMax;
      var (nfd, nfile) := OpenInput(t, inst, 1, freeFd);
      fd, openFile := nfd, nfile;
      rc := if fd < 0 then -1 else 0;
    }

    /**
     * generic_temp_read: take the lock, read the open input from its start
     * and parse it.  A failed or empty read returns 0 with the lock still held.
     */
    method GenericTempRead(now: Tree) returns (v: U32)
      modifies this`heldLocks
      ensures v == PollValue(now, View())
      ensures heldLocks == old(heldLocks) + (if ReadInput(now, View()).Bytes? then 0 else 1)
    {
      heldLocks := heldLocks + 1;
      var payload := ReadInput(now, View());
      if !payload.Bytes? {
        return 0;
      }
      heldLocks := heldLocks - 1;
      v := Strtoul32(Terminated(payload.data));
    }
  }

  /** One `struct temp_ops` entry: a driver type, its init strategy and its state. */
  class TempOps {
    const typeName: string
    const driver: Driver
    const state: TempState

    constructor (typeName: string, driver: Driver)
      ensures this.typeName == typeName && this.driver == driver
      ensures fresh(state) && state.View() == StateView(0, 0, 0, None)
      ensures !state.hasMutex && state.heldLocks == 0
    {
      this.typeName := typeName;
      this.driver := driver;
      state := new TempState();
    }
  }

  /** The process-wide globals: `temp_ops[]` and `hwmon_type`. */
  class Registry {
    /** The type of the entry discovery last initialised ("none" before). */
    var hwmonType: string
    const table: seq<TempOps>

    ghost predicate Valid()
    {
      |table| == |Table| &&
      (forall k :: 0 <= k < |table| ==> table[k].typeName == TableNames[k] && table[k].driver == Table[k]) &&
      (forall j, k :: 0 <= j < k < |table| ==> table[j].state != table[k].state)
    }

    function States(): set<TempState>
    {
      set k | 0 <= k < |table| :: table[k].state
    }

    constructor ()
      ensures Valid() && hwmonType == "none"
      ensures forall k :: 0 <= k < |table| ==>
        fresh(table[k].state) && table[k].state.View() == StateView(0, 0, 0, None) &&
        !table[k].state.hasMutex && table[k].state.heldLocks == 0
    {
      var coretemp := new TempOps("coretemp", Coretemp);
      var k10temp := new TempOps("k10temp", K10temp);
      var cpuThermal := new TempOps("cpu_thermal", CpuThermal);
      table := [coretemp, k10temp, cpuThermal];
      hwmonType := "none";
    }

    /**
     * What ops_init returns in the current state: -1 when no instance
     * matches; 0 and the entry when its state is already initialised;
     * otherwise the entry and the return code of its init.
     */
    function OpsInitResult(t: Tree, freeFd: nat): (r: (int, Option<nat>))
      requires Valid()
      reads States()
      ensures Discover(t).None? <==> r == (-1, None)
      ensures Discover(t).Some? ==> r.1 == Some(Discover(t).value.entry) && (r.0 == 0 || r.0 == -1)
      // an entry whose descriptor is already set is reported as found without an init
      ensures Discover(t).Some? && table[Discover(t).value.entry].state.fd != 0 ==> r.0 == 0
    {
      match Discover(t)
      case None => (-1, None)
      case Some(m) =>
        var st := table[m.entry].state;
        if st.fd != 0 then (0, Some(m.entry))
        else (InitOutcome(Table[m.entry], t, m.inst, freeFd, st.View()).0, Some(m.entry))
    }

    /**
     * The search loop of ops_init: instances 0 .. 98 in order, skipping
     * unopenable and empty names, until a name matches a table entry.
     */
    method FindInstance(t: Tree) returns (i: nat, ops: Option<nat>)
      requires Valid()
      ensures ops.None? <==> Discover(t).None?
      ensures ops.Some? ==> Discover(t) == Some(Match(i, ops.value))
    {
      ops := None;
      i := 0;
      while i < InstanceLimit
        invariant 0 <= i <= InstanceLimit
        invariant ops.None?
        invariant FirstHit(NameSteps(t), i) == FirstHit(NameSteps(t), 0)
      {
        var name := ReadFile(NameFile(t, i), NameCap);
        assert NameSteps(t)[i] == if NameKnown(t, i) then Hit else Skip;
        if name.Unopenable? {
          i := i + 1;
          continue;
        }
        if name.EmptyRead? {
          i := i + 1;
          continue;
        }
        ops := MatchTable(Terminated(name.data));
        if ops.Some? {
          break;
        }
        i := i + 1;
      }
    }

    /** The inner loop of ops_init: the first table entry whose type equals `declared`. */
    method MatchTable(declared: string) returns (ops: Option<nat>)
      requires Valid()
      ensures ops.Some? ==> ops.value < |table| && table[ops.value].typeName == declared
      ensures ops.None? <==> declared !in TableNames
      ensures ops == TableIndex(declared)
    {
      var n := 0;
      while n < |table|
        invariant 0 <= n <= |table|
        invariant forall k :: 0 <= k < n ==> TableNames[k] != declared
      {
        if table[n].typeName == declared {
          return Some(n);
        }
        n := n + 1;
      }
      return None;
    }

    /**
     * ops_init: find the first hwmon instance whose name is in the table;
     * unless that entry's state is already initialised, create its mutex,
     * record its type in `hwmon_type` and run its init on the instance.
     */
    method OpsInit(t: Tree, freeFd: nat) returns (rc: int, found: Option<nat>)
      requires Valid()
      modifies this`hwmonType, States()
      ensures (rc, found) == old(OpsInitResult(t, freeFd))
      ensures Discover(t).None? ==>
        hwmonType == old(hwmonType) && forall k :: 0 <= k < |table| ==> unchanged(table[k].state)
      ensures Discover(t).Some? ==>
        var m := Discover(t).value;
        var st := table[m.entry].state;
        (forall k :: 0 <= k < |table| && k != m.entry ==> unchanged(table[k].state)) &&
        (old(st.fd) != 0 ==> hwmonType == old(hwmonType) && unchanged(st)) &&
        (old(st.fd) == 0 ==>
           hwmonType == TableNames[m.entry] && st.hasMutex && st.heldLocks == old(st.heldLocks) &&
           (rc, st.View()) == InitOutcome(Table[m.entry], t, m.inst, freeFd, old(st.View())))
    {
      var i, ops := FindInstance(t);
      if ops.None? {
        return -1, None;
      }
      found := ops;
      var n := ops.value;
      var st := table[n].state;
      if st.fd != 0 {
        return 0, found;
      }
      st.hasMutex := true;
      hwmonType := table[n].typeName;
      match table[n].driver {
        case Coretemp => rc := st.CoretempInit(t, i, freeFd);
        case K10temp => rc := st.K10tempInit(t, i, freeFd);
        case CpuThermal => rc := st.CpuThermalInit(t, i, freeFd);
      }
    }
  }

  /**
   * After an init that started from the uninitialised descriptor 0 with a
   * nonzero descriptor free, the state counts as initialised exactly when
   * the init succeeded or the driver is cpu_thermal (whose failed open
   * leaves -1); a failed label scan leaves 0 and is retried.
   */
  lemma InitSetsGuard(d: Driver, t: Tree, inst: nat, freeFd: nat, s: StateView)
    requires s.fd == 0 && freeFd > 0
    ensures var r := InitOutcome(d, t, inst, freeFd, s);
      r.1.fd != 0 <==> r.0 == 0 || d == CpuThermal
  {
  }

  /**
   * Discovery run twice on the same tree: a first call that returned 0 is
   * repeated with the same answer, and so is a cpu_thermal entry whose
   * first init failed, which the second call reports as success.
   */
  method DiscoverTwice(reg: Registry, t: Tree, freeFd: nat, laterFd: nat)
      returns (first: (int, Option<nat>), second: (int, Option<nat>))
    requires reg.Valid() && freeFd > 0
    modifies reg`hwmonType, reg.States()
    // entry 2 of the table is cpu_thermal
    ensures first.0 == 0 ==> second == first
    ensures first.0 == -1 && first.1 == Some(2) ==> second == (0, first.1)
  {
    var rc, found := reg.OpsInit(t, freeFd);
    first := (rc, found);
    if Discover(t).Some? {
      var m := Discover(t).value;
      if old(reg.table[m.entry].state.fd) == 0 {
        InitSetsGuard(Table[m.entry], t, m.inst, freeFd, old(reg.table[m.entry].state.View()));
      }
    }
    rc, found := reg.OpsInit(t, laterFd);
    second := (rc, found);
  }
}
