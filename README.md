# tempMon: hwmon CPU temperature device support, modelled in Dafny

`tempMon` is EPICS device support for `ai` records that report the CPU
temperature of a Linux host. At attach time (`temp_init_record`), a record's
INST_IO string selects one of three readings: the live temperature, the
maximum threshold or the critical threshold. Every attach with a valid selector then
runs discovery (`ops_init`): it walks `/sys/class/hwmon/hwmon0 .. hwmon98` and picks
the first instance whose `name` is a known driver type (`coretemp`, `k10temp`,
`cpu_thermal`). Unless that entry's shared `temp_state` is
already initialised (its descriptor is nonzero), the driver's init strategy
then finds the input channel and the thresholds and stores them there. At read time
(`temp_read_ai`), RVAL is filled from the live sysfs value or from a stored
threshold. A record with no bound entry is marked undefined and raises an
INVALID communication alarm.

The model is split into five modules:

- `Sysfs` (sysfs.dfy):
  - the hwmon tree as an immutable value, where every pseudo-file is missing or holds some bytes;
  - `ReadFile`, one open(2) plus read(2) into a fixed buffer;
  - `Terminated`, the C-string view left after the last byte read is overwritten with NUL.
- `Payload` (payload.dfy):
  - `strtoul(buf, NULL, 10)` for a 64-bit `unsigned long`: white space, sign, saturation at ULONG_MAX, negation modulo 2^64;
  - the truncation to `uint32_t`;
  - the payload parse shared by `sysfs_read_uint` and `generic_temp_read`, with its round trip against the kernel's decimal text.
- `Scan` (scan.dfy): the first-hit search shape, with stop, skip and hit steps, shared by discovery and the label scans.
- `Drivers` (drivers.dfy):
  - the `temp_ops` table order;
  - the specifications of discovery (`Discover`), of the label scans (`LabelScan`) and of what each init strategy leaves in a `temp_state` (`InitOutcome`).
- `Hwmon` (hwmon.dfy):
  - the imperative half: `TempState` (`struct temp_state`), `TempOps` (one `temp_ops` entry) and `Registry` (`temp_ops[]` and `hwmon_type`);
  - the discovery loops of `ops_init`, the three init strategies and `generic_temp_read`, each proved against the `Drivers` specifications.
- `DevTempMon` (devtempmon.dfy):
  - the selector parser;
  - the `ai` record with its `dpvt`, RVAL, UDF and pending alarm;
  - `temp_init_record` and `temp_read_ai`.

Environment inputs are parameters:
- the sysfs tree at attach time (`t`) and at read time (`now`);
- the lowest free file descriptor that `open` would return (`freeFd`).

## Model

| member | source | states |
|---|---|---|
| Sysfs.ReadFile | tempMonApp/src/tempMon.c:207-214 | open fails exactly for a missing file; a read of 0 bytes happens exactly for an empty file; otherwise the bytes read are a non-empty prefix of the file of at most the buffer size, and all of it when it fits |
| Sysfs.Terminated | tempMonApp/src/tempMon.c:215 | `buf[nr-1] = 0`: the string seen is a prefix of the bytes read without the last one, and is exactly those bytes when they hold no NUL |
| Payload.Strtoul | tempMonApp/src/tempMon.c:217 | strtoul never exceeds ULONG_MAX, and on a digit string it is the decimal value saturated at ULONG_MAX |
| Payload.Strtoul32 | tempMonApp/src/tempMon.c:217 | the `uint32_t` returned equals the decimal value of a digit string below 2^32 |
| Payload.PayloadValue | tempMonApp/src/tempMon.c:207-217 | an unopenable file or an empty read yields 0 |
| Payload.SysfsReadUint | tempMonApp/src/tempMon.c:204-218 | a missing or empty file reads as 0; a file of at most 128 bytes whose bytes before the last are digits of a value below 2^32 reads as that value |
| Payload.NegativeExample | tempMonApp/src/tempMon.c:215-217 | the payload "-5000\n" reads as 2^32 - 5000: strtoul negates modulo 2^64 and the low 32 bits are kept |
| Payload.StrtoulNegativeExample | tempMonApp/src/tempMon.c:217 | strtoul("-5000") is 2^64 - 5000 |
| Payload.PayloadOfDigits | tempMonApp/src/tempMon.c:215-217 | bytes made of digits plus one trailing byte parse to the digits' value |
| Payload.PayloadRoundTrip | tempMonApp/src/tempMon.c:204-218 | a file holding the decimal text of any 32-bit value and a newline parses back to that value through any buffer longer than 10 bytes |
| Payload.ScalarExample | tempMonApp/src/tempMon.c:204-218 | the payload "43375\n" reads as 43375 millidegrees |
| Scan.FirstHitFindsFirst | tempMonApp/src/tempMon.c:227-256 | a search finds index c exactly when c hits and every step before it is a skip |
| Scan.FirstHitFails | tempMonApp/src/tempMon.c:318-340 | a search finds nothing exactly when every hit lies behind a stop |
| Drivers.TableIndexFrom | tempMonApp/src/tempMon.c:245-250 | the table entry chosen has the name searched for and no earlier entry has it; none is chosen exactly when no entry has it |
| Drivers.NameMatchesUnique | tempMonApp/src/tempMon.c:55-59 | table types are distinct, so an instance name matches at most one entry |
| Drivers.Discover | tempMonApp/src/tempMon.c:227-260 | a chosen instance is below 99 and its stripped name equals the chosen entry's type |
| Drivers.DiscoverFindsFirst | tempMonApp/src/tempMon.c:227-256 | discovery picks instance i and entry n exactly when i < 99, i's name is n's type, and no lower instance has a readable name in the table |
| Drivers.DiscoverFails | tempMonApp/src/tempMon.c:258-260 | discovery fails (-1) exactly when no instance in 0..98 declares a table type |
| Drivers.LabelStepMeaning | tempMonApp/src/tempMon.c:318-334 | a channel stops the scan exactly when its label is missing, and hits exactly when its label reads and matches the rule |
| Drivers.LabelScan | tempMonApp/src/tempMon.c:313-341 | a chosen channel lies in 1..98 and its label hits |
| Drivers.LabelScanFindsFirst | tempMonApp/src/tempMon.c:358-396 | the scan chooses channel c exactly when c hits and every channel from 1 up to c is openable and either empty or not matching |
| Drivers.LabelScanFails | tempMonApp/src/tempMon.c:313-341 | the scan chooses nothing exactly when every matching channel lies behind an unopenable label |
| Drivers.ToLower | tempMonApp/src/tempMon.c:379 | each upper-case ASCII letter maps to its own lower-case letter and every other byte is unchanged |
| Drivers.CaseInsensitivePrefix | tempMonApp/src/tempMon.c:379 | a label shorter than the prefix never matches, and a label that starts with the prefix verbatim always matches |
| Drivers.PackageIdPrefixMeaning | tempMonApp/src/tempMon.c:379 | a label satisfies the coretemp rule exactly when it has at least ten bytes and each of the first ten is the corresponding byte of "package id" or of "PACKAGE ID" |
| Drivers.InitOutcome | tempMonApp/src/tempMon.c:302-412 | rc is 0 or -1; k10temp and cpu_thermal leave the thresholds at 100000 and 110000; cpu_thermal succeeds iff temp1_input opens, and a failed cpu_thermal init leaves fd -1 and no open file; a scanning strategy succeeds iff its scan finds a channel, even when its input is missing; a failed scan leaves the descriptor unchanged; coretemp takes its thresholds from the chosen channel's max and crit files (0 when unreadable) |
| Hwmon.TempState.constructor | tempMonApp/src/tempMon.c:29-34 | a state in static storage starts with fd, thresholds and mutex all zero |
| Hwmon.TempState.K10tempInit | tempMonApp/src/tempMon.c:302-342 | the loop leaves exactly the rc and state `InitOutcome` gives for k10temp |
| Hwmon.TempState.CoretempInit | tempMonApp/src/tempMon.c:344-397 | the loop leaves exactly the rc and state `InitOutcome` gives for coretemp |
| Hwmon.TempState.CpuThermalInit | tempMonApp/src/tempMon.c:399-412 | leaves exactly the rc and state `InitOutcome` gives for cpu_thermal |
| Hwmon.TempState.GenericTempRead | tempMonApp/src/tempMon.c:279-297 | returns the parsed payload of the open input as it is now (0 on a failed or empty read); a failed read returns with the lock still held |
| Hwmon.TempOps.constructor | tempMonApp/src/tempMon.c:36-41 | an entry pairs a type and an init strategy with its own fresh zeroed state |
| Hwmon.Registry.constructor | tempMonApp/src/tempMon.c:55-59 | the table holds coretemp, k10temp and cpu_thermal in that order, with distinct zeroed states (no mutex created, no lock held), and `hwmon_type` is "none" |
| Hwmon.Registry.OpsInitResult | tempMonApp/src/tempMon.c:258-273 | discovery returns (-1, none) exactly when no instance matches; otherwise it returns the matched entry and 0 or -1, and 0 whenever that entry's descriptor is already nonzero |
| Hwmon.Registry.FindInstance | tempMonApp/src/tempMon.c:227-256 | the instance loop finds an entry exactly when `Discover` does, and it is the same instance and entry |
| Hwmon.Registry.MatchTable | tempMonApp/src/tempMon.c:245-250 | the inner loop finds the first entry whose type equals the name, and none exactly when the name is not a table type |
| Hwmon.Registry.OpsInit | tempMonApp/src/tempMon.c:220-274 | returns `OpsInitResult`; a failed discovery changes nothing; an already initialised entry (fd != 0) is left unchanged; otherwise only that entry's state changes (its mutex is created and the init outcome applied) and `hwmon_type` becomes its type |
| Hwmon.InitSetsGuard | tempMonApp/src/tempMon.c:264-266 | after an init from fd 0 with a nonzero descriptor free, the entry counts as initialised exactly when the init succeeded or the driver is cpu_thermal |
| Hwmon.DiscoverTwice | tempMonApp/src/tempMon.c:262-273 | a second discovery repeats a successful first one unchanged, and reports success for a cpu_thermal entry whose first init failed |
| DevTempMon.ParseSelector | tempMonApp/src/tempMon.c:131-143 | a kind is returned only for its own selector text, and none exactly when the text is none of the three |
| DevTempMon.SelectorRoundTrip | tempMonApp/src/tempMon.c:134-139 | each of "CPU_TEMP", "CPU_MAX_TEMP" and "CPU_CRIT_TEMP" is parsed to its kind |
| DevTempMon.ToInt32 | tempMonApp/src/tempMon.c:185 | the `uint32_t` stored in the `epicsInt32` RVAL is in the 32-bit signed range, congruent to it modulo 2^32, and equal to it below 2^31 |
| DevTempMon.TemperatureRoundTrip | tempMonApp/src/tempMon.c:180-186 | a CPU_TEMP read of an input file holding the decimal text of n < 2^31 and a newline gives n |
| DevTempMon.NegativeTemperature | tempMonApp/src/tempMon.c:180-186 | a CPU_TEMP read of an input file holding "-5000\n" gives RVAL -5000 |
| DevTempMon.FixedThresholdReadings | tempMonApp/src/tempMon.c:187-192 | after a k10temp or cpu_thermal init, CPU_MAX_TEMP reads 100000 and CPU_CRIT_TEMP reads 110000 |
| DevTempMon.AiRecord.InitRecord | tempMonApp/src/tempMon.c:123-165 | an unknown selector returns S_dev_badInpType before any discovery and changes nothing; otherwise it returns 0, binds the record to the discovered entry with its kind exactly when discovery returned 0, and changes the registry exactly as one discovery does (other entries untouched, an initialised entry untouched, otherwise mutex created, `hwmon_type` set and the init outcome applied) |
| DevTempMon.AiRecord.ReadAi | tempMonApp/src/tempMon.c:167-198 | returns 0; with no binding it sets UDF and raises COMM/INVALID without touching RVAL; with a binding RVAL takes the live poll, `cpu_crit` or `cpu_max` for the record's kind, the state and its mutex are unchanged, and only a failed live read leaves the lock held |
| DevTempMon.AttachWithoutDriver | tempMonApp/src/tempMon.c:145-178 | on a host without a supported driver, attach returns 0 with no binding, and a read then sets UDF and a COMM/INVALID alarm |
| DevTempMon.FixedMaxScenario | tempMonApp/src/tempMon.c:187-192 | a CPU_MAX_TEMP record bound to a k10temp or cpu_thermal entry reads 100000 |
| DevTempMon.AttachTwiceCpuThermal | tempMonApp/src/tempMon.c:145-162 | on a cpu_thermal host whose temp1_input is missing, a first record stays unbound (its init leaves fd -1), and a second record attached afterwards is bound, because fd != 0 skips the init |

## Left out

- Concurrency and the mutex: creating the mutex is recorded by the flag `hasMutex`, and a ghost count keeps the lock acquisitions never released. Locking itself and callers racing on one state are not modelled.
- Syscalls are abstracted:
  - `open`/`read`/`lseek`/`close` and path formatting with `snprintf` are replaced by the sysfs value;
  - descriptors are not tracked: the one `sysfs_read_uint` leaves open on an empty or failed read, and the tempN_input descriptor kept open by design;
  - `Drivers.OpenInput` stands in for open(2) on tempN_input: the descriptor number it returns is the parameter `freeFd`, and -1 when the file is missing.
- Hwmon.TempState.K10tempInit, Hwmon.TempState.CoretempInit: a label `read` that fails with -1 is stored in a `size_t` there, so the later indexing is undefined. A read is modelled only as missing, empty or some bytes.
- Hwmon.TempState.GenericTempRead: `assert(st->fd >= 0)` is not modelled. A negative descriptor is a read that fails, so the read yields 0.
- The `printf` diagnostics of `temp_init_record` (an invalid selector, no hwmon interface found) are console output.
- The `hwmonStatus` shell command and its registration, the `temp_report` and `temp_init` stubs, and the `devTempMon` dset export are console output and framework glue.
- `recGblSetSevr` belongs to the record framework: the model keeps its rule that a pending alarm is only raised, never lowered. Unit conversion of RVAL to engineering units is not modelled.
- The `read` pointer of each `temp_ops` entry is always `generic_temp_read`, so it is called directly rather than through the table.
- `unsigned long` is taken to be 64 bits wide; `strtoul`'s `errno` is not modelled.
