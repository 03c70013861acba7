/**
 * The compiled-in driver table and the pure rules behind discovery and the
 * three vendor locate strategies: which hwmon instance is chosen, which
 * channel a label scan picks, and what state each strategy leaves behind.
 */
module Drivers {
  import opened Sysfs
  import opened Payload
  import opened Scan

  /** The `init` strategy of a table entry. */
  datatype Driver = Coretemp | K10temp | CpuThermal

  /** The entries of `temp_ops[]`, in table (tie-break) order. */
  const Table: seq<Driver> := [Coretemp, K10temp, CpuThermal]
  const TableNames: seq<string> := ["coretemp", "k10temp", "cpu_thermal"]

  /** The first table entry whose type equals `name`, searching from entry `n`. */
  function TableIndexFrom(name: string, n: nat): (r: Option<nat>)
    requires n <= |TableNames|
    ensures r.Some? ==>
      (n <= r.value < |TableNames| && TableNames[r.value] == name &&
       forall k :: n <= k < r.value ==> TableNames[k] != name)
    ensures r.None? ==> forall k :: n <= k < |TableNames| ==> TableNames[k] != name
    decreases |TableNames| - n
  {
    if n == |TableNames| then None
    else if TableNames[n] == name then Some(n)
    else TableIndexFrom(name, n + 1)
  }

  function TableIndex(name: string): Option<nat>
  {
    TableIndexFrom(name, 0)
  }

  /** The C string instance `inst` declares in its `name` file, if it reads any bytes. */
  function DeclaredName(t: Tree, inst: nat): Option<string>
  {
    match ReadFile(NameFile(t, inst), NameCap)
    case Bytes(d) => Some(Terminated(d))
    case _ => None
  }

  /** Instance `inst` declares the type of table entry `n`. */
  predicate NameMatches(t: Tree, inst: nat, n: nat)
  {
    n < |TableNames| && DeclaredName(t, inst) == Some(TableNames[n])
  }

  /** Instance `inst` declares the type of some table entry. */
  predicate NameKnown(t: Tree, inst: nat)
  {
    DeclaredName(t, inst).Some? && DeclaredName(t, inst).value in TableNames
  }

  /** An instance declares at most one table type, and a known name declares one. */
  lemma NameMatchesUnique(t: Tree, inst: nat, n: nat, m: nat)
    requires NameMatches(t, inst, n) && NameMatches(t, inst, m)
    ensures n == m
  {
  }

  /** Discovery skips every instance whose name is unreadable or not in the table. */
  function NameSteps(t: Tree): (steps: seq<ScanStep>)
    ensures |steps| == InstanceLimit
    ensures forall i :: 0 <= i < |steps| ==> steps[i] != Stop
  {
    seq(InstanceLimit, i requires 0 <= i => if NameKnown(t, i) then Hit else Skip)
  }

  datatype Match = Match(inst: nat, entry: nat)

  /**
   * ops_init's search: the first instance in 0 .. 98 whose name is in the
   * table, with the first table entry of that name.
   */
  function Discover(t: Tree): (r: Option<Match>)
    ensures r.Some? ==> r.value.inst < InstanceLimit && NameMatches(t, r.value.inst, r.value.entry)
  {
    match FirstHit(NameSteps(t), 0)
    case None => None
    case Some(i) =>
      assert NameKnown(t, i);
      var n := TableIndex(DeclaredName(t, i).value).value;
      Some(Match(i, n))
  }

  /**
   * Discovery picks the lowest-indexed instance in range whose name equals a
   * table type, and the entry of that type; unreadable names are skipped.
   */
  lemma DiscoverFindsFirst(t: Tree, inst: nat, n: nat)
    ensures Discover(t) == Some(Match(inst, n)) <==>
      inst < InstanceLimit && NameMatches(t, inst, n) &&
      forall j :: 0 <= j < inst ==> !NameKnown(t, j)
  {
    var steps := NameSteps(t);
    FirstHitFindsFirst(steps, 0, inst);
    assert forall j :: 0 <= j < |steps| ==> (steps[j] == Hit <==> NameKnown(t, j));
    if Discover(t) == Some(Match(inst, n)) {
      assert FirstHit(steps, 0) == Some(inst);
    }
    if inst < InstanceLimit && NameMatches(t, inst, n) && forall j :: 0 <= j < inst ==> !NameKnown(t, j) {
      assert FirstHit(steps, 0) == Some(inst);
      NameMatchesUnique(t, inst, n, Discover(t).value.entry);
    }
  }

  /** Discovery fails exactly when no instance in range declares a table type. */
  lemma DiscoverFails(t: Tree)
    ensures Discover(t).None? <==> forall j :: 0 <= j < InstanceLimit ==> !NameKnown(t, j)
  {
    var steps := NameSteps(t);
    FirstHitFails(steps, 0);
    if forall j :: 0 <= j < InstanceLimit ==> !NameKnown(t, j) {
      assert forall c :: 0 <= c < |steps| ==> steps[c] != Hit;
    } else {
      var j :| 0 <= j < InstanceLimit && NameKnown(t, j);
      assert steps[j] == Hit;
    }
  }

  /** The label rule of a scanning strategy. */
  datatype LabelRule = ExactTctl | PackageIdPrefix

  /** tolower() on one byte in the C locale. */
  function ToLower(c: char): (r: char)
    ensures 'A' <= c <= 'Z' ==> r == "abcdefghijklmnopqrstuvwxyz"[c as int - 'A' as int]
    ensures !('A' <= c <= 'Z') ==> r == c
  {
    if 'A' <= c <= 'Z' then (c as int + 32) as char else c
  }

  /** `strncasecmp(s, p, |p|) == 0` for a NUL-free `s`. */
  predicate CaseInsensitivePrefix(p: string, s: string)
    // a string shorter than the prefix never matches; one starting with it verbatim always does
    ensures CaseInsensitivePrefix(p, s) ==> |s| >= |p|
    ensures |s| >= |p| && s[..|p|] == p ==> CaseInsensitivePrefix(p, s)
  {
    |s| >= |p| && forall k :: 0 <= k < |p| ==> ToLower(s[k]) == ToLower(p[k])
  }

  /**
   * The coretemp rule spelled out: a label matches when its first ten bytes
   * are "Package id", each byte in either case.
   */
  lemma PackageIdPrefixMeaning(s: string)
    ensures CaseInsensitivePrefix("Package id", s) <==>
      |s| >= 10 && forall k :: 0 <= k < 10 ==> s[k] == "package id"[k] || s[k] == "PACKAGE ID"[k]
  {
  }

  predicate LabelMatches(rule: LabelRule, text: string)
  {
    match rule
    case ExactTctl => text == "Tctl"
    case PackageIdPrefix => CaseInsensitivePrefix("Package id", text)
  }

  function LabelAt(t: Tree, inst: nat, ch: nat): ReadOutcome
  {
    ReadFile(LabelFile(t, inst, ch), LabelCap)
  }

  /**
   * An unopenable label stops the scan; an empty label, or one that does not
   * satisfy `rule` once its last byte is dropped, is skipped; the rest hit.
   */
  function LabelStep(t: Tree, inst: nat, rule: LabelRule, ch: nat): ScanStep
  {
    match LabelAt(t, inst, ch)
    case Unopenable => Stop
    case EmptyRead => Skip
    case Bytes(d) => if LabelMatches(rule, Terminated(d)) then Hit else Skip
  }

  /** A stop is exactly an unopenable label; a hit is a label read and matched. */
  lemma LabelStepMeaning(t: Tree, inst: nat, rule: LabelRule, ch: nat)
    ensures LabelStep(t, inst, rule, ch) == Stop <==> LabelFile(t, inst, ch).Missing?
    ensures LabelStep(t, inst, rule, ch) == Hit <==>
      LabelAt(t, inst, ch).Bytes? && LabelMatches(rule, Terminated(LabelAt(t, inst, ch).data))
  {
  }

  /** The steps of a label scan over temp0 .. temp98 (temp0 is never probed). */
  function LabelSteps(t: Tree, inst: nat, rule: LabelRule): (steps: seq<ScanStep>)
    ensures |steps| == ChannelLimit
  {
    seq(ChannelLimit, ch requires 0 <= ch => LabelStep(t, inst, rule, ch))
  }

  /** The channel the k10temp / coretemp strategies choose: the first hit from temp1 on. */
  function LabelScan(t: Tree, inst: nat, rule: LabelRule): (r: Option<nat>)
    ensures r.Some? ==> 1 <= r.value < ChannelLimit && LabelStep(t, inst, rule, r.value) == Hit
  {
    FirstHit(LabelSteps(t, inst, rule), 1)
  }

  /**
   * The scan chooses channel `c` exactly when `c` hits and every channel
   * from temp1 up to it is skipped (openable, and empty or not matching).
   */
  lemma LabelScanFindsFirst(t: Tree, inst: nat, rule: LabelRule, c: nat)
    ensures LabelScan(t, inst, rule) == Some(c) <==>
      1 <= c < ChannelLimit && LabelStep(t, inst, rule, c) == Hit &&
      forall j :: 1 <= j < c ==> LabelStep(t, inst, rule, j) == Skip
  {
    var steps := LabelSteps(t, inst, rule);
    FirstHitFindsFirst(steps, 1, c);
    if 1 <= c < ChannelLimit {
      assert forall j :: 1 <= j < c ==> steps[j] == LabelStep(t, inst, rule, j);
    }
  }

  /**
   * The scan chooses nothing exactly when every hit in range lies behind an
   * unopenable label (in particular when there is no hit at all).
   */
  lemma LabelScanFails(t: Tree, inst: nat, rule: LabelRule)
    ensures LabelScan(t, inst, rule).None? <==>
      forall c :: 1 <= c < ChannelLimit && LabelStep(t, inst, rule, c) == Hit ==>
        exists j :: 1 <= j < c && LabelStep(t, inst, rule, j) == Stop
  {
    var steps := LabelSteps(t, inst, rule);
    FirstHitFails(steps, 1);
    assert forall j :: 0 <= j < |steps| ==> steps[j] == LabelStep(t, inst, rule, j);
  }

  /** The fields of `struct temp_state` the strategies write and the poll reads. */
  datatype StateView = StateView(fd: int, cpuMax: U32, cpuCrit: U32, openFile: Option<ChannelRef>)

  /** The input file a descriptor is open on: tempCH_input of hwmonINST. */
  datatype ChannelRef = ChannelRef(inst: nat, ch: nat)

  /** The thresholds used when the driver exposes none (millidegrees). */
  const DefaultMax: U32 := 100000
  const DefaultCrit: U32 := 110000

  /**
   * open(tempCH_input, O_RDONLY): the lowest free descriptor `freeFd` and the
   * file it refers to, or -1 when the file is missing.
   */
  function OpenInput(t: Tree, inst: nat, ch: nat, freeFd: nat): (r: (int, Option<ChannelRef>))
    ensures InputFile(t, inst, ch).Present? ==> r == (freeFd, Some(ChannelRef(inst, ch)))
    ensures InputFile(t, inst, ch).Missing? ==> r == (-1, None)
  {
    if InputFile(t, inst, ch).Present? then (freeFd as int, Some(ChannelRef(inst, ch))) else (-1, None)
  }

  /** The label rule of a scanning strategy. */
  function RuleOf(d: Driver): LabelRule
    requires d != CpuThermal
  {
    if d == K10temp then ExactTctl else PackageIdPrefix
  }

  /**
   * The return code and the state a strategy's init leaves: k10temp_init,
   * coretemp_init and cpu_thermal_init for hwmon instance `inst`.
   */
  function InitOutcome(d: Driver, t: Tree, inst: nat, freeFd: nat, s: StateView): (r: (int, StateView))
    ensures r.0 == 0 || r.0 == -1
    // k10temp and cpu_thermal always leave the fixed thresholds
    ensures d != Coretemp ==> r.1.cpuMax == DefaultMax && r.1.cpuCrit == DefaultCrit
    // cpu_thermal succeeds iff temp1_input opens, and then reads that file
    ensures d == CpuThermal ==> (r.0 == 0 <==> InputFile(t, inst, 1).Present?)
    ensures d == CpuThermal && r.0 == 0 ==> r.1.fd == freeFd && r.1.openFile == Some(ChannelRef(inst, 1))
    ensures d == CpuThermal && r.0 != 0 ==> r.1.fd == -1 && r.1.openFile == None
    // the scanning strategies succeed iff their scan finds a channel, whether or not its input opens
    ensures d != CpuThermal ==> (r.0 == 0 <==> LabelScan(t, inst, RuleOf(d)).Some?)
    ensures d != CpuThermal && LabelScan(t, inst, RuleOf(d)).Some? ==>
      var c := LabelScan(t, inst, RuleOf(d)).value;
      (InputFile(t, inst, c).Present? ==> r.1.fd == freeFd && r.1.openFile == Some(ChannelRef(inst, c))) &&
      (InputFile(t, inst, c).Missing? ==> r.1.fd == -1 && r.1.openFile == None)
    // a failed scan leaves the descriptor as it was
    ensures d != CpuThermal && LabelScan(t, inst, RuleOf(d)).None? ==> r.1.fd == s.fd && r.1.openFile == s.openFile
    // coretemp reads its thresholds from the chosen channel, 0 when unreadable
    ensures d == Coretemp ==>
      match LabelScan(t, inst, PackageIdPrefix)
      case Some(c) => r.1.cpuMax == SysfsReadUint(MaxFile(t, inst, c)) && r.1.cpuCrit == SysfsReadUint(CritFile(t, inst, c))
      case None => r.1.cpuMax == DefaultMax && r.1.cpuCrit == DefaultCrit
    // a descriptor that was opened is never the "not initialised" value 0 unless 0 was free
    ensures r.1.openFile.Some? && r.1.openFile != s.openFile ==> r.1.fd == freeFd
  {
    match d
    case CpuThermal =>
      var (fd, f) := OpenInput(t, inst, 1, freeFd);
      (if fd < 0 then -1 else 0, StateView(fd, DefaultMax, DefaultCrit, f))
    case K10temp =>
      (match LabelScan(t, inst, ExactTctl)
       case None => (-1, s.(cpuMax := DefaultMax, cpuCrit := DefaultCrit))
       case Some(c) =>
         var (fd, f) := OpenInput(t, inst, c, freeFd);
         (0, StateView(fd, DefaultMax, DefaultCrit, f)))
    case Coretemp =>
      match LabelScan(t, inst, PackageIdPrefix)
      case None => (-1, s.(cpuMax := DefaultMax, cpuCrit := DefaultCrit))
      case Some(c) =>
        var (fd, f) := OpenInput(t, inst, c, freeFd);
        (0, StateView(fd, SysfsReadUint(MaxFile(t, inst, c)), SysfsReadUint(CritFile(t, inst, c)), f))
  }

  /** What read(2) on the state's descriptor delivers now: nothing when it is not open on a file. */
  function ReadInput(now: Tree, s: StateView): ReadOutcome
  {
    match s.openFile
    case None => Unopenable
    case Some(r) => ReadFile(InputFile(now, r.inst, r.ch), PollCap)
  }

  /** The value generic_temp_read returns: the parsed payload, 0 on a failed or empty read. */
  function PollValue(now: Tree, s: StateView): U32
  {
    PayloadValue(ReadInput(now, s))
  }
}
