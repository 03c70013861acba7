/**
 * The Linux hwmon sysfs tree (/sys/class/hwmon/hwmonI/...), seen as an
 * immutable value: every pseudo-file is either missing (open fails) or holds
 * some bytes.  Reading a file into a fixed-size buffer, and the C-string view
 * of that buffer after its last byte has been overwritten with NUL, are the
 * only two I/O shapes the temperature layer uses.
 */
module Sysfs {

  datatype Option<T> = None | Some(value: T)

  /** A sysfs pseudo-file: open(2) fails, or it holds these bytes. */
  datatype File = Missing | Present(content: string)

  /** What a successful read(2) delivers: at least one byte. */
  type ReadBytes = s: string | |s| > 0 witness "\n"

  /** The outcome of one open(2) + read(2) into a buffer. */
  datatype ReadOutcome = Unopenable | EmptyRead | Bytes(data: ReadBytes)

  /** One tempN_* group of an hwmon instance. */
  datatype Channel = Channel(tempLabel: File, tempInput: File, tempMax: File, tempCrit: File)

  /** One hwmonI directory: its `name` file and its tempN_* channels. */
  datatype Instance = Instance(name: File, channels: map<nat, Channel>)

  datatype Tree = Tree(instances: map<nat, Instance>)

  /** Instances hwmon0 .. hwmon98 are probed. */
  const InstanceLimit: nat := 99
  /** Channels temp1 .. temp98 are probed. */
  const ChannelLimit: nat := 99

  /** Buffer sizes of the reads: `name[256]`, `label[256]`, `buf[128]`, `buf[32]`. */
  const NameCap: nat := 256
  const LabelCap: nat := 256
  const ScalarCap: nat := 128
  const PollCap: nat := 32

  function NameFile(t: Tree, inst: nat): File
  {
    if inst in t.instances then t.instances[inst].name else Missing
  }

  function ChannelAt(t: Tree, inst: nat, ch: nat): Option<Channel>
  {
    if inst in t.instances && ch in t.instances[inst].channels
    then Some(t.instances[inst].channels[ch])
    else None
  }

  function LabelFile(t: Tree, inst: nat, ch: nat): File
  {
    match ChannelAt(t, inst, ch)
    case Some(c) => c.tempLabel
    case None => Missing
  }

  function InputFile(t: Tree, inst: nat, ch: nat): File
  {
    match ChannelAt(t, inst, ch)
    case Some(c) => c.tempInput
    case None => Missing
  }

  function MaxFile(t: Tree, inst: nat, ch: nat): File
  {
    match ChannelAt(t, inst, ch)
    case Some(c) => c.tempMax
    case None => Missing
  }

  function CritFile(t: Tree, inst: nat, ch: nat): File
  {
    match ChannelAt(t, inst, ch)
    case Some(c) => c.tempCrit
    case None => Missing
  }

  /**
   * open(2) then one read(2) of at most `cap` bytes: a missing file cannot be
   * opened, an empty one reads 0 bytes, otherwise the first bytes arrive.
   */
  function ReadFile(f: File, cap: nat): (r: ReadOutcome)
    requires cap > 0
    ensures r.Unopenable? <==> f.Missing?
    ensures r.EmptyRead? <==> f == Present("")
    ensures r.Bytes? ==> 0 < |r.data| <= cap && r.data <= f.content
    ensures r.Bytes? && |f.content| <= cap ==> r.data == f.content
  {
    match f
    case Missing => Unopenable
    case Present(c) =>
      if |c| == 0 then EmptyRead
      else if |c| <= cap then Bytes(c)
      else Bytes(c[..cap])
  }

  /** The C string held by a buffer: everything before its first NUL. */
  function CStr(s: string): (r: string)
    ensures r <= s
    ensures '\0' !in r
    ensures |r| < |s| ==> s[|r|] == '\0'
  {
    if |s| == 0 || s[0] == '\0' then ""
    else [s[0]] + CStr(s[1..])
  }

  /**
   * `buf[nr-1] = 0` on the bytes read: the last byte read (normally the
   * newline) is dropped and the rest is read as a C string.
   */
  function Terminated(d: ReadBytes): (r: string)
    ensures r <= d[..|d| - 1]
    ensures '\0' !in d[..|d| - 1] ==> r == d[..|d| - 1]
  {
    CStr(d[..|d| - 1])
  }
}
