# PCMCIA device enumeration — Dafny model

This project models the PCMCIA part of biosdevname, `src/pcmcia.c`. That code finds PC Card devices. It probes sockets 0 to 7 through sysfs. It builds one record per card function whose `function` attribute parses. It reads function 0's `func_id`. It also scans the card's Card Information Structure (CIS) for the LAN technology byte of a network card.

The model is functional. Sysfs and the tuple library (libpcmcia) become an oracle (`Devices.Env`). The device list is a `seq<Device>` in insertion order. One detail matters: the running FUNCID lives in a function-local `static` in `parse_tuple_for_network`, so it survives from one `get_network_type` call to the next. The model passes it into every scan explicitly and gets it back as a result. The collector threads it through every function of every socket.

Modules:

- `Base`: `Option`, `Result`, the unsigned byte, and the errno values EIO (5), ENODEV (19) and EINVAL (22).
- `Cis`: `get_lan_tech`, `parse_tuple_for_network` and `get_network_type`. A `Cis` value records what the tuple library answers for one socket:
  - the return code of the CIS read-out;
  - the tuples the first-tuple and next-tuple steps return;
  - whether the chain then ends in an END tuple or in a failing step.

  The tuple codes are the ones the PC Card Standard metaformat defines: FUNCID 0x21, FUNCE 0x22, END 0xFF, function code NETWORK 6 and FUNCE type LAN_TECH 1.
- `Attribute`: `read_out_file` and the parsing half of `pccardctl_get_one_f`.
- `Devices`: the functions below.
  - `pccardctl_socket_exists` and `pccardctl_get_one` (both as oracle answers).
  - `alloc_pcmcia` (`AllocPcmcia`, with its function loop `FunctionRecords`).
  - `get_pcmcia_devices` (`GetPcmciaDevices`).
  - `free_pcmcia_devices` (`FreePcmciaDevices`).

  `Sysfs` is the oracle the collector and enumerator consume. It is the same oracle, with each attribute file already passed through `GetOneF` and each socket's scan written as a function of the starting FUNCID. `View` builds it from the raw answers.
- `Format`: `unparse_pcmcia_name` and `unparse_pcmcia_device`, with a parser that reads a location name back.

## Behaviour worth noting

- The running FUNCID is a `static` local of `parse_tuple_for_network` and is never reset between scans. The model threads it from scan to scan, across functions and across sockets.
- When `get_network_type` returns 0 without finding a LAN technology byte, the record's `network_type` gets the local default 0 (`Some(0)`).
- A failing next-tuple step makes `get_network_type` return that step's non-zero code. The record's `network_type` is then left unassigned (`None`).

## Model

| member | source | states |
|---|---|---|
| Cis.LanTech | src/pcmcia.c:36-45 | an extension of type LAN_TECH gives its technology byte; any other extension type gives 0 |
| Cis.ParseForNetwork | src/pcmcia.c:47-64 | a tuple contributes a non-zero byte iff it is a FUNCE of type LAN_TECH with a non-zero byte while the running FUNCID is NETWORK; that byte is the contribution; a FUNCID tuple sets the running FUNCID to its function code; every other tuple leaves it unchanged |
| Cis.Walk | src/pcmcia.c:87-108 | a written network type comes with return code 0 and is non-zero; a non-zero return code is the failing step's code, comes with nothing written, and occurs only when no END tuple was met |
| Cis.GetNetworkType | src/pcmcia.c:66-109 | a failing CIS read-out returns its code with nothing written and the running FUNCID unchanged; a written byte is non-zero and comes with return code 0 |
| Cis.WalkEndsAtFirstStop | src/pcmcia.c:87-101 | the loop ends at its first stop; at END it writes nothing and returns 0; at a contributing tuple it writes that contribution; in both cases the running FUNCID is the last decoded FUNCID before that tuple |
| Cis.WalkWithoutStop | src/pcmcia.c:87-108 | with no stop in the listed tuples, the chain's end decides the return code (0 for END, the step's code otherwise); nothing is written; the running FUNCID is the last decoded FUNCID of the whole chain |
| Cis.FoundIsFirstContribution | src/pcmcia.c:87-101 | the scan writes n iff the first tuple where the loop stops is not END and contributes n under the running FUNCID at that point (both directions) |
| Cis.NetworkTypeReturnCode | src/pcmcia.c:76-108 | the return code is non-zero iff the read-out fails, or the chain ends in a failing step before any stop; the code is that of the failing call |
| Cis.UndecodedTupleIsSkipped | src/pcmcia.c:94-105 | inserting a tuple the library cannot decode anywhere in the chain changes neither the result nor the running FUNCID |
| Cis.NoFuncIdKeepsRunningId | src/pcmcia.c:49-59 | a scan over a chain with no decoded FUNCID hands back the running FUNCID it was given |
| Cis.FunctionIdGatingExamples | src/pcmcia.c:52-64 | FUNCID NETWORK then LAN_TECH 5 reports 5; FUNCID fixed disk then LAN_TECH 5 reports nothing; LAN_TECH 0 reports nothing |
| Cis.RunningIdCarriesOverExample | src/pcmcia.c:49-55 | after a scan that ended on a NETWORK FUNCID, a chain holding only a LAN_TECH extension reports its byte; started from 0, the same chain reports nothing |
| Attribute.ErrorCode | src/pcmcia.c:196-202 | an unreadable attribute gives -EINVAL and a malformed one gives -EIO; both are negative and distinct |
| Attribute.ReadPage | src/pcmcia.c:158-170 | one read returns a prefix of the file of at most one page, and the whole file when it fits |
| Attribute.ReadOutFileAsWritten | src/pcmcia.c:164-178 | as written: a failed open or read is a failure; an empty read is undefined behaviour, exactly when the read returns no byte |
| Attribute.ReadOutFile | src/pcmcia.c:147-186 | fails exactly when the file cannot be opened or read; otherwise yields the page read with one trailing newline removed if there is one |
| Attribute.StripNewline | src/pcmcia.c:177-178 | removes exactly one trailing newline when present and otherwise leaves the text unchanged |
| Attribute.EmptyFileReadIsUndefined | src/pcmcia.c:170-178 | an empty but readable file sends the code as written into the out-of-bounds test, while the guarded reader yields the empty text |
| Attribute.ReadOutFileAgreesOnNonEmptyRead | src/pcmcia.c:176-179 | on every read of at least one byte, the guarded reader equals the code as written |
| Attribute.ScanHex | src/pcmcia.c:200-201 | parses iff the text starts with the literal "0x" followed by a hex digit; every failure is Malformed |
| Attribute.GetOneF | src/pcmcia.c:188-203 | Unreadable iff the file cannot be read; otherwise the parse of the first page read, so the newline strip never changes it, and a file of at most a page parses as its whole content |
| Attribute.StripNewlineIrrelevant | src/pcmcia.c:176-201 | removing the trailing newline never changes the outcome of the "0x%X" parse |
| Attribute.ScanHexReadsRun | src/pcmcia.c:200-201 | "0x", then a non-empty run of hex digits, then text not starting with a hex digit, parses to the run's value |
| Attribute.AttributeRoundTrip | src/pcmcia.c:196-202 | a file holding n printed as "0x%X\n" reads back as n |
| Devices.FunctionId | src/pcmcia.c:205-208 | a record's function identifier is present iff function 0's func_id parses, and is then that value |
| Devices.NetworkField | src/pcmcia.c:240-257 | the record's network type is unset iff the scan fails; otherwise it is the byte found, or 0 when none was found |
| Devices.FunctionRecords | src/pcmcia.c:236-260 | at most one record per remaining function index, in strictly ascending function order; each has the socket, a function below 4 whose "function" attribute parses, and function 0's func_id; the running FUNCID afterwards is the one left by as many scans as records |
| Devices.FunctionRecordsComplete | src/pcmcia.c:236-243 | every function index whose "function" attribute parses has a record |
| Devices.FunctionRecordsNetworkType | src/pcmcia.c:240-257 | the k-th record's network type comes from the k-th scan of the socket, which starts from the running FUNCID the previous k scans left |
| Devices.FailingScansLeaveNetworkTypeUnset | src/pcmcia.c:255-257 | when every scan of the socket fails, no record of the socket gets a network type |
| Devices.AllocPcmcia | src/pcmcia.c:210-262 | with no card_insert file or no resolving link: -ENODEV, list and running FUNCID unchanged; otherwise 0, and the socket's records are appended after the untouched old list |
| Devices.AllocSingleFunction | src/pcmcia.c:236-260 | a card with exactly one parsing function gains exactly one record, for that function; its function identifier is absent when func_id is unreadable |
| Devices.EnumerateFrom | src/pcmcia.c:276-278 | returns 0; keeps the old list as a prefix; appends only records of sockets with a card and a resolving link, in (socket, function) order, with sockets from the start socket up to 7 |
| Devices.EnumerateFromComplete | src/pcmcia.c:276-278 | every discovered (socket, function) from the start socket on has a record after the old list |
| Devices.AllocAppends | src/pcmcia.c:236-261 | alloc_pcmcia keeps the old list as a prefix and appends only records of its own socket, in ascending function order, each for a card with a resolving link, a parsing function attribute and function 0's func_id |
| Devices.FailedReadOutFailsEveryScan | src/pcmcia.c:76-78 | when a socket's CIS read-out fails, every scan of it fails, whatever running FUNCID it starts from |
| Devices.GetPcmciaDevices | src/pcmcia.c:273-280 | returns 0; keeps the old list as a prefix; every new record has socket below 8 and function below 4, is discovered, and carries function 0's func_id; it has no network type when every scan of its socket fails; new records are ordered by (socket, function) |
| Devices.GetPcmciaDevicesFindsExactlyDiscovered | src/pcmcia.c:219-243 | a (socket, function) below (8, 4) has a new record iff the card_insert file is regular, a link resolves, and the function attribute parses |
| Devices.FreePcmciaDevices | src/pcmcia.c:264-271 | leaves the list empty and releases every record exactly once, in list order; on an empty list nothing is released |
| Format.DecimalRoundTrip | src/pcmcia.c:284 | the decimal rendering of n, as "%u" prints it, reads back as n |
| Format.UnparsePcmciaName | src/pcmcia.c:282-285 | the name is the decimal socket, a dot, and the decimal function; the returned count is the name's length |
| Format.UnparsePcmciaDevice | src/pcmcia.c:287-294 | the line is "PCMCIA location : ", then the name, then a newline; the returned count is the line's length |
| Format.NameRoundTrip | src/pcmcia.c:282-285 | parsing a location name gives back the record's socket and function |
| Format.DeviceLineRoundTrip | src/pcmcia.c:287-294 | the location line is the fixed prefix, then a name that parses back to socket and function, then a newline |
| Format.FormatExample | src/pcmcia.c:282-294 | socket 2, function 1 renders as "2.1" (count 3) and "PCMCIA location : 2.1\n" (count 22) |

## Left out

- Filesystem calls (`lstat`, `open`, `read`, `close`, `readlink`, `getpagesize`) are oracle answers in `Devices.Env`. A short read is not modelled: one read returns the file up to one page.
- The `NULL`-path branch of `sysfs_path_is_file` cannot be reached from `pccardctl_socket_exists`, which always passes a buffer.
- The device name built with `basename`/`dirname` in `alloc_pcmcia` is never used. Only the success of the two `readlink` calls is modelled.
- libpcmcia calls (`read_out_cis`, `pcmcia_get_first_tuple`, `pcmcia_get_next_tuple`, `pcmcia_get_tuple_data`, `pccard_parse_tuple`) are foreign code. Their answers are the `Cis.Cis` value, and the binary tuple layout is not modelled. The ignored return of `pcmcia_get_tuple_data` is left out. `src/pcmcia.h` and the tuple library headers are not part of this model; the tuple constants come from the PC Card Standard metaformat.
- The `malloc` failure paths (`-ENOMEM` in `read_out_file` and `alloc_pcmcia`) are left out. So are the intrusive list pointers and `free`: the list is a sequence.
- Record fields that the code leaves uninitialised are modelled as `None`:
  - `function_id` when `func_id` does not parse;
  - `network_type` when `get_network_type` fails.
- `src/state.h`: only its `pcmcia_devices` list is modelled. The other three lists are not used by this code.
- Attribute.ScanHex: accepts only "0x" followed directly by hex digits. `sscanf` with "%X" also skips white space after the literal, and it takes a sign and a second "0x" prefix. The value is an unbounded natural, where `%X` stores into a 32-bit `unsigned int` (no overflow modelled).
- Format.UnparsePcmciaName: the caller's buffer size and `snprintf` truncation are not modelled. Output is unbounded and the count is the full length.
- Format.UnparsePcmciaDevice: same as above. Truncation and the pointer arithmetic on the remaining size are not modelled.
- Devices.GetPcmciaDevices: states a record's network type only for sockets whose every scan fails. Devices.FailedReadOutFailsEveryScan shows this covers a failed CIS read-out. Within one socket, Devices.FunctionRecordsNetworkType gives the exact value. Across sockets, the running FUNCID is threaded by the definition but not restated in the contract.

## Findings

| source | as written | input that shows it | evidently intended | confidence | as-written member | corrected member |
|---|---|---|---|---|---|---|
| src/pcmcia.c:176-178 | `read_out_file` tests `result[length-1]` for a newline even when `read` returned 0 bytes, so it reads and may write the byte before the buffer | an attribute file that opens and reads as empty (`Attribute.EmptyFileReadIsUndefined`) | strip a newline only when at least one byte was read | high; not executed | Attribute.ReadOutFileAsWritten | Attribute.ReadOutFile |
