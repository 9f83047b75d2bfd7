/** Device collection: probing the sockets, building one record per
    function whose "function" attribute parses, and releasing the list.
    The filesystem and the tuple library are an oracle (`Env`); the list is
    a sequence in insertion order; the running function identifier of the
    network-type scan is passed in and handed back explicitly, because the
    C code keeps it in a static that survives from call to call. */
module Devices {
  import opened Base
  import opened Cis
  import opened Attribute

  const MaxSocket: nat := 8
  const MaxFunctions: nat := 4

  /** The two attribute files read per function. */
  datatype AttrName = FunctionAttr | FuncIdAttr

  /** The answers of the system: whether a socket's card_insert is a
      regular file, whether its device link or its class link resolves, the
      content of an attribute file of (socket, function) (None when it cannot
      be opened or read), the tuple library's answers for a socket, and the
      page size that bounds one attribute read. */
  datatype Env = Env(
    cardInsertIsFile: nat -> bool,
    deviceLinkResolves: nat -> bool,
    socketLinkResolves: nat -> bool,
    attributeFile: (nat, nat, AttrName) -> Option<string>,
    cis: nat -> Cis,
    pageSize: nat)

  /** The view derived from `Env` (see `View`) that the collector and the
      enumerator consume: the same three link/file answers, every attribute
      file already put through pccardctl_get_one_f, and the network-type scan
      of a socket as a function of the running identifier it starts from. */
  datatype Sysfs = Sysfs(
    cardInsertIsFile: nat -> bool,
    deviceLinkResolves: nat -> bool,
    socketLinkResolves: nat -> bool,
    attribute: (nat, nat, AttrName) -> Result<nat, AttrError>,
    scan: (nat, int) -> Scan)

  function View(env: Env): (sys: Sysfs)
    ensures forall s: nat, f: nat, n: AttrName ::
      sys.attribute(s, f, n) == GetOneF(env.attributeFile(s, f, n), env.pageSize)
    ensures forall s: nat, func: int :: sys.scan(s, func) == GetNetworkType(func, env.cis(s))
    ensures sys.cardInsertIsFile == env.cardInsertIsFile
    ensures sys.deviceLinkResolves == env.deviceLinkResolves && sys.socketLinkResolves == env.socketLinkResolves
  {
    Sysfs(env.cardInsertIsFile, env.deviceLinkResolves, env.socketLinkResolves,
          (s: nat, f: nat, n: AttrName) => GetOneF(env.attributeFile(s, f, n), env.pageSize),
          (s: nat, func: int) => GetNetworkType(func, env.cis(s)))
  }

  /** One record of the list.  A field is None where the C code leaves the
      freshly allocated record's field unassigned. */
  datatype Device = Device(socket: nat, fn: nat, functionId: Option<nat>, networkType: Option<Byte>)

  /** Return code, device list and running function identifier after a
      collection step. */
  datatype Collected = Collected(rc: int, devices: seq<Device>, func: int)

  /** The socket's card_insert status file exists and is a regular file. */
  predicate CardPresent(sys: Sysfs, socket: nat) {
    sys.cardInsertIsFile(socket)
  }

  /** One of the two readlink calls that name the socket's device succeeds. */
  predicate DeviceResolves(sys: Sysfs, socket: nat) {
    sys.deviceLinkResolves(socket) || sys.socketLinkResolves(socket)
  }

  /** The function's "function" attribute reads and parses. */
  predicate HasFunction(sys: Sysfs, socket: nat, fn: nat) {
    sys.attribute(socket, fn, FunctionAttr).Ok?
  }

  /** A record exists for (socket, fn) after enumeration. */
  predicate Discovered(sys: Sysfs, socket: nat, fn: nat) {
    CardPresent(sys, socket) && DeviceResolves(sys, socket) && HasFunction(sys, socket, fn)
  }

  /** Every scan of the socket fails, whatever running identifier it
      starts from. */
  ghost predicate ScanAlwaysFails(sys: Sysfs, socket: nat) {
    forall func: int :: sys.scan(socket, func).rc != 0
  }

  /** The function identifier stored in every record of a socket: function
      0's func_id attribute, when it parses. */
  function FunctionId(sys: Sysfs, socket: nat): (id: Option<nat>)
    ensures id.Some? <==> sys.attribute(socket, 0, FuncIdAttr).Ok?
    ensures id.Some? ==> id.value == sys.attribute(socket, 0, FuncIdAttr).value
  {
    match sys.attribute(socket, 0, FuncIdAttr)
    case Ok(v) => Some(v)
    case Err(_) => None
  }

  /** The network type a record receives from one scan: assigned only when
      the scan returns 0, and then the byte found or the initial 0. */
  function NetworkField(s: Scan): (t: Option<Byte>)
    ensures t.None? <==> s.rc != 0
    ensures s.rc == 0 && s.networkType.Some? ==> t == s.networkType
    ensures s.rc == 0 && s.networkType.None? ==> t == Some(0)
  {
    if s.rc == 0 then Some(s.networkType.GetOr(0)) else None
  }

  /** The running identifier after k successive scans of the socket. */
  function ScansFrom(sys: Sysfs, socket: nat, func: int, k: nat): int
    decreases k
  {
    if k == 0 then func else ScansFrom(sys, socket, sys.scan(socket, func).func, k - 1)
  }

  /** The record list is ordered by socket, then by function. */
  predicate Before(a: Device, b: Device) {
    a.socket < b.socket || (a.socket == b.socket && a.fn < b.fn)
  }

  /** A record built for `socket` of this system. */
  predicate RecordOf(sys: Sysfs, socket: nat, d: Device) {
    && d.socket == socket
    && d.fn < MaxFunctions
    && HasFunction(sys, socket, d.fn)
    && d.functionId == FunctionId(sys, socket)
  }

  /** The records of one socket and the running identifier after them. */
  datatype Batch = Batch(records: seq<Device>, func: int)

  /** The loop of alloc_pcmcia from function index i on: each function whose
      "function" attribute parses gets the next record, with the network
      type of a scan that starts from the running identifier the previous
      scan left. */
  function FunctionRecords(sys: Sysfs, socket: nat, i: nat, func: int): (b: Batch)
    requires i <= MaxFunctions
    ensures |b.records| <= MaxFunctions - i
    ensures forall k :: 0 <= k < |b.records| ==> RecordOf(sys, socket, b.records[k]) && i <= b.records[k].fn
    ensures forall k, l :: 0 <= k < l < |b.records| ==> b.records[k].fn < b.records[l].fn
    ensures b.func == ScansFrom(sys, socket, func, |b.records|)
    decreases MaxFunctions - i
  {
    if i == MaxFunctions then Batch([], func)
    else if !HasFunction(sys, socket, i) then FunctionRecords(sys, socket, i + 1, func)
    else
      var scan := sys.scan(socket, func);
      var d := Device(socket, i, FunctionId(sys, socket), NetworkField(scan));
      var rest := FunctionRecords(sys, socket, i + 1, scan.func);
      assert ([d] + rest.records)[0] == d;
      Batch([d] + rest.records, rest.func)
  }

  /** Every function from i on whose "function" attribute parses has a
      record; k is its position. */
  lemma {:induction false} FunctionRecordsComplete(sys: Sysfs, socket: nat, i: nat, func: int, f: nat) returns (k: nat)
    requires i <= f < MaxFunctions && HasFunction(sys, socket, f)
    ensures k < |FunctionRecords(sys, socket, i, func).records|
    ensures FunctionRecords(sys, socket, i, func).records[k].fn == f
    decreases f - i
  {
    var b := FunctionRecords(sys, socket, i, func);
    if !HasFunction(sys, socket, i) {
      k := FunctionRecordsComplete(sys, socket, i + 1, func, f);
    } else {
      var scan := sys.scan(socket, func);
      var d := Device(socket, i, FunctionId(sys, socket), NetworkField(scan));
      var rest := FunctionRecords(sys, socket, i + 1, scan.func);
      assert b.records == [d] + rest.records;
      if i == f {
        k := 0;
      } else {
        var j := FunctionRecordsComplete(sys, socket, i + 1, scan.func, f);
        k := j + 1;
        assert b.records[k] == rest.records[j];
      }
    }
  }

  /** The k-th record of a socket takes its network type from the k-th
      scan of the socket, which starts from the running identifier the
      previous scans left. */
  lemma {:induction false} FunctionRecordsNetworkType(sys: Sysfs, socket: nat, i: nat, func: int, k: nat)
    requires i <= MaxFunctions
    requires k < |FunctionRecords(sys, socket, i, func).records|
    ensures FunctionRecords(sys, socket, i, func).records[k].networkType
      == NetworkField(sys.scan(socket, ScansFrom(sys, socket, func, k)))
    decreases MaxFunctions - i
  {
    var b := FunctionRecords(sys, socket, i, func);
    if !HasFunction(sys, socket, i) {
      assert b == FunctionRecords(sys, socket, i + 1, func);
      FunctionRecordsNetworkType(sys, socket, i + 1, func, k);
    } else {
      var scan := sys.scan(socket, func);
      var d := Device(socket, i, FunctionId(sys, socket), NetworkField(scan));
      var rest := FunctionRecords(sys, socket, i + 1, scan.func);
      assert b.records == [d] + rest.records;
      if k > 0 {
        FunctionRecordsNetworkType(sys, socket, i + 1, scan.func, k - 1);
        assert b.records[k] == rest.records[k - 1];
      }
    }
  }

  /** When every scan of the socket fails, no record of it gets a network
      type. */
  lemma FailingScansLeaveNetworkTypeUnset(sys: Sysfs, socket: nat, func: int)
    requires ScanAlwaysFails(sys, socket)
    ensures forall k :: 0 <= k < |FunctionRecords(sys, socket, 0, func).records| ==>
      FunctionRecords(sys, socket, 0, func).records[k].networkType == None
  {
    var b := FunctionRecords(sys, socket, 0, func);
    forall k | 0 <= k < |b.records|
      ensures b.records[k].networkType == None
    {
      FunctionRecordsNetworkType(sys, socket, 0, func, k);
      assert sys.scan(socket, ScansFrom(sys, socket, func, k)).rc != 0;
    }
  }

  /** alloc_pcmcia: nothing changes unless a card is present and the
      device link resolves; otherwise the socket's records are appended at
      the tail and the earlier records stay as they were. */
  function AllocPcmcia(sys: Sysfs, socket: nat, devices: seq<Device>, func: int): (r: Collected)
    ensures !(CardPresent(sys, socket) && DeviceResolves(sys, socket)) ==>
      r == Collected(-ENODEV, devices, func)
    ensures CardPresent(sys, socket) && DeviceResolves(sys, socket) ==>
      && r.rc == 0
      && r.devices == devices + FunctionRecords(sys, socket, 0, func).records
      && r.func == FunctionRecords(sys, socket, 0, func).func
  {
    if !CardPresent(sys, socket) then Collected(-ENODEV, devices, func)
    else if !DeviceResolves(sys, socket) then Collected(-ENODEV, devices, func)
    else
      var b := FunctionRecords(sys, socket, 0, func);
      Collected(0, devices + b.records, b.func)
  }

  /** A socket with a card whose only parsing "function" attribute is
      function f gains exactly one record, for f, carrying function 0's
      func_id when that parses and no function identifier otherwise. */
  lemma AllocSingleFunction(sys: Sysfs, socket: nat, devices: seq<Device>, func: int, f: nat)
    requires CardPresent(sys, socket) && DeviceResolves(sys, socket)
    requires f < MaxFunctions && HasFunction(sys, socket, f)
    requires forall g :: 0 <= g < MaxFunctions && g != f ==> !HasFunction(sys, socket, g)
    ensures var r := AllocPcmcia(sys, socket, devices, func);
      && r.rc == 0
      && |r.devices| == |devices| + 1
      && r.devices[..|devices|] == devices
      && r.devices[|devices|].socket == socket && r.devices[|devices|].fn == f
      && (sys.attribute(socket, 0, FuncIdAttr).Err? ==> r.devices[|devices|].functionId == None)
  {
    var b := FunctionRecords(sys, socket, 0, func);
    var k := FunctionRecordsComplete(sys, socket, 0, func, f);
    assert k == 0;
  }

  /** A record built for a socket with a card and a resolving device link,
      without a network type when every scan of the socket fails. */
  ghost predicate Collectable(sys: Sysfs, d: Device) {
    && CardPresent(sys, d.socket) && DeviceResolves(sys, d.socket)
    && RecordOf(sys, d.socket, d)
    && (ScanAlwaysFails(sys, d.socket) ==> d.networkType == None)
  }

  /** `devices` extends `prior` by collectable records of sockets from
      `socket` to 7, in (socket, function) order. */
  ghost predicate AppendedFrom(sys: Sysfs, socket: nat, prior: seq<Device>, devices: seq<Device>) {
    && |prior| <= |devices| && devices[..|prior|] == prior
    && (forall k :: |prior| <= k < |devices| ==>
          socket <= devices[k].socket < MaxSocket && Collectable(sys, devices[k]))
    && (forall k, l :: |prior| <= k < l < |devices| ==> Before(devices[k], devices[l]))
  }

  /** The loop of get_pcmcia_devices from socket `socket` on; the return
      code of each alloc_pcmcia is ignored. */
  function EnumerateFrom(sys: Sysfs, socket: nat, devices: seq<Device>, func: int): (r: Collected)
    requires socket <= MaxSocket
    ensures r.rc == 0
    ensures AppendedFrom(sys, socket, devices, r.devices)
    decreases MaxSocket - socket
  {
    if socket == MaxSocket then Collected(0, devices, func)
    else
      var a := AllocPcmcia(sys, socket, devices, func);
      var r := EnumerateFrom(sys, socket + 1, a.devices, a.func);
      AllocAppends(sys, socket, devices, func);
      EnumerateStep(sys, socket, devices, a.devices, r.devices);
      Collected(0, r.devices, r.func)
  }

  /** alloc_pcmcia appends collectable records of its socket, in ascending
      function order. */
  lemma AllocAppends(sys: Sysfs, socket: nat, devices: seq<Device>, func: int)
    ensures var a := AllocPcmcia(sys, socket, devices, func);
      && |devices| <= |a.devices| && a.devices[..|devices|] == devices
      && (forall k :: |devices| <= k < |a.devices| ==> a.devices[k].socket == socket && Collectable(sys, a.devices[k]))
      && (forall k, l :: |devices| <= k < l < |a.devices| ==> a.devices[k].fn < a.devices[l].fn)
  {
    var a := AllocPcmcia(sys, socket, devices, func);
    if CardPresent(sys, socket) && DeviceResolves(sys, socket) {
      var b := FunctionRecords(sys, socket, 0, func);
      assert a.devices == devices + b.records;
      if ScanAlwaysFails(sys, socket) {
        FailingScansLeaveNetworkTypeUnset(sys, socket, func);
      }
      forall k | |devices| <= k < |a.devices|
        ensures a.devices[k] == b.records[k - |devices|]
      {
      }
    }
  }

  /** One socket's records followed by the later sockets' records keep the
      list in order. */
  lemma EnumerateStep(sys: Sysfs, socket: nat, devices: seq<Device>, mid: seq<Device>, later: seq<Device>)
    requires socket < MaxSocket
    requires |devices| <= |mid| && mid[..|devices|] == devices
    requires forall k :: |devices| <= k < |mid| ==> mid[k].socket == socket && Collectable(sys, mid[k])
    requires forall k, l :: |devices| <= k < l < |mid| ==> mid[k].fn < mid[l].fn
    requires AppendedFrom(sys, socket + 1, mid, later)
    ensures AppendedFrom(sys, socket, devices, later)
  {
    assert later[..|devices|] == later[..|mid|][..|devices|];
    forall k | |devices| <= k < |mid|
      ensures later[k] == mid[k]
    {
      assert later[..|mid|][k] == mid[k];
    }
  }

  /** One step of the socket loop. */
  lemma EnumerateUnfold(sys: Sysfs, socket: nat, devices: seq<Device>, func: int)
    requires socket < MaxSocket
    ensures var a := AllocPcmcia(sys, socket, devices, func);
      && |devices| <= |a.devices|
      && EnumerateFrom(sys, socket, devices, func).devices == EnumerateFrom(sys, socket + 1, a.devices, a.func).devices
  {
  }

  /** A discovered function of the socket being collected gets a record
      that the later sockets leave in place. */
  lemma CompleteAtSocket(sys: Sysfs, socket: nat, devices: seq<Device>, func: int, f: nat) returns (k: nat)
    requires socket < MaxSocket && f < MaxFunctions && Discovered(sys, socket, f)
    ensures |devices| <= k < |EnumerateFrom(sys, socket, devices, func).devices|
    ensures EnumerateFrom(sys, socket, devices, func).devices[k].socket == socket
    ensures EnumerateFrom(sys, socket, devices, func).devices[k].fn == f
  {
    var a := AllocPcmcia(sys, socket, devices, func);
    var b := FunctionRecords(sys, socket, 0, func);
    var j := FunctionRecordsComplete(sys, socket, 0, func, f);
    k := |devices| + j;
    assert a.devices == devices + b.records;
    assert a.devices[k] == b.records[j];
    EnumerateUnfold(sys, socket, devices, func);
    var later := EnumerateFrom(sys, socket + 1, a.devices, a.func).devices;
    PrefixElement(a.devices, later, k);
  }

  /** Every discovered (socket, fn) from socket `socket` on has a record;
      k is its position. */
  lemma {:induction false} EnumerateFromComplete(sys: Sysfs, socket: nat, devices: seq<Device>, func: int, s: nat, f: nat)
    returns (k: nat)
    requires socket <= s < MaxSocket && f < MaxFunctions && Discovered(sys, s, f)
    ensures |devices| <= k < |EnumerateFrom(sys, socket, devices, func).devices|
    ensures EnumerateFrom(sys, socket, devices, func).devices[k].socket == s
    ensures EnumerateFrom(sys, socket, devices, func).devices[k].fn == f
    decreases s - socket
  {
    if s == socket {
      k := CompleteAtSocket(sys, socket, devices, func, f);
    } else {
      var a := AllocPcmcia(sys, socket, devices, func);
      EnumerateUnfold(sys, socket, devices, func);
      k := EnumerateFromComplete(sys, socket + 1, a.devices, a.func, s, f);
    }
  }

  lemma PrefixElement<T>(p: seq<T>, q: seq<T>, k: nat)
    requires |p| <= |q| && q[..|p|] == p && k < |p|
    ensures q[k] == p[k]
  {
    assert q[..|p|][k] == q[k];
  }

  /** A socket whose CIS cannot be read out fails every scan. */
  lemma FailedReadOutFailsEveryScan(env: Env, socket: nat)
    requires env.cis(socket).readOut != 0
    ensures ScanAlwaysFails(View(env), socket)
  {
    var sys := View(env);
    forall func: int
      ensures sys.scan(socket, func).rc != 0
    {
      assert sys.scan(socket, func) == GetNetworkType(func, env.cis(socket));
    }
  }

  /** get_pcmcia_devices: scans sockets 0 to 7 in order and always
      returns 0.  The list keeps its old records and gains, ordered by socket
      then function, one record for each discovered (socket, function), all
      with a socket below 8 and a function below 4; a socket every scan of
      which fails gives records without a network type. */
  function GetPcmciaDevices(sys: Sysfs, devices: seq<Device>, func: int): (r: Collected)
    ensures r.rc == 0
    ensures |devices| <= |r.devices| && r.devices[..|devices|] == devices
    ensures forall k :: |devices| <= k < |r.devices| ==>
      r.devices[k].socket < MaxSocket && r.devices[k].fn < MaxFunctions
      && Discovered(sys, r.devices[k].socket, r.devices[k].fn)
      && r.devices[k].functionId == FunctionId(sys, r.devices[k].socket)
      && (ScanAlwaysFails(sys, r.devices[k].socket) ==> r.devices[k].networkType == None)
    ensures forall k, l :: |devices| <= k < l < |r.devices| ==> Before(r.devices[k], r.devices[l])
  {
    EnumerateFrom(sys, 0, devices, func)
  }

  /** Exactly the discovered (socket, function) pairs with a socket below 8
      and a function below 4 get a record. */
  lemma GetPcmciaDevicesFindsExactlyDiscovered(sys: Sysfs, devices: seq<Device>, func: int, s: nat, f: nat)
    requires s < MaxSocket && f < MaxFunctions
    ensures var r := GetPcmciaDevices(sys, devices, func);
      Discovered(sys, s, f) <==>
        exists k :: |devices| <= k < |r.devices| && r.devices[k].socket == s && r.devices[k].fn == f
  {
    var r := GetPcmciaDevices(sys, devices, func);
    if Discovered(sys, s, f) {
      var k := EnumerateFromComplete(sys, 0, devices, func, s, f);
      assert |devices| <= k < |r.devices| && r.devices[k].socket == s && r.devices[k].fn == f;
    }
  }

  /** free_pcmcia_devices: unlinks and releases every record in list order.
      `released` lists the records in the order they are released. */
  method FreePcmciaDevices(devices: seq<Device>) returns (remaining: seq<Device>, released: seq<Device>)
    ensures remaining == []
    ensures released == devices
  {
    remaining := devices;
    released := [];
    while remaining != []
      invariant released + remaining == devices
      decreases |remaining|
    {
      var pos := remaining[0];
      remaining := remaining[1..];
      released := released + [pos];
    }
  }
}
