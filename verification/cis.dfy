/** The network-type scan of a card's Card Information Structure (CIS):
    a walk over the tuple chain that reports the LAN technology byte of the
    first FUNCE tuple met while the running function identifier is NETWORK.
    Reading the CIS, stepping the chain and decoding one tuple belong to the
    tuple library; here their answers are given as a `Cis` value. */
module Cis {
  import opened Base

  /** Tuple codes and field values of the PC Card Standard metaformat. */
  const CodeFuncId: Byte := 0x21
  const CodeFuncE: Byte := 0x22
  const CodeEnd: Byte := 0xFF
  const FuncIdNetwork: Byte := 0x06
  const FunceLanTech: Byte := 0x01

  /** One tuple as the scan sees it: its code, whether the tuple library
      decoded it, and the decoded fields the scan may read (the FUNCID
      function code, the FUNCE extension type and its LAN technology byte). */
  datatype Tuple = Tuple(code: Byte, parsed: bool, funcId: Byte, funceType: Byte, lanTech: Byte)

  /** What stepping past the last listed tuple gives: an END tuple, or a
      failing step with its non-zero return code. */
  datatype ChainEnd = EndTuple | StepFailed(rc: ErrCode)

  /** The answers of the tuple library for one socket: the return code of
      reading out the CIS (0 on success), the tuples obtained one by one from
      the first-tuple and next-tuple steps, and how the chain ends after them.
      A failing first step is an empty `tuples` with a `StepFailed` end. */
  datatype Cis = Cis(readOut: int, tuples: seq<Tuple>, last: ChainEnd)

  /** The outcome of one scan: the return code, the byte written to the
      caller's network type (None when nothing is written), and the running
      function identifier left for the next scan. */
  datatype Scan = Scan(rc: int, networkType: Option<Byte>, func: int)

  /** The effect of one visited tuple: the running function identifier after
      it and the technology byte it contributes (0 for none). */
  datatype Step = Step(func: int, n: Byte)

  /** The extension's technology byte when the extension reports LAN
      technology, 0 otherwise. */
  function LanTech(t: Tuple): (tech: Byte)
    ensures t.funceType == FunceLanTech ==> tech == t.lanTech
    ensures t.funceType != FunceLanTech ==> tech == 0
  {
    if t.funceType == FunceLanTech then t.lanTech else 0
  }

  /** One decoded tuple under the running function identifier `func`. */
  function ParseForNetwork(t: Tuple, func: int): (s: Step)
    ensures s.n != 0 <==>
      t.code == CodeFuncE && func == FuncIdNetwork as int && t.funceType == FunceLanTech && t.lanTech != 0
    ensures s.n != 0 ==> s.n == t.lanTech
    ensures t.code == CodeFuncId ==> s.func == t.funcId as int
    ensures t.code != CodeFuncId ==> s.func == func
  {
    if t.code == CodeFuncId then Step(t.funcId, 0)
    else if t.code == CodeFuncE then
      Step(func, if func == FuncIdNetwork as int then LanTech(t) else 0)
    else Step(func, 0)
  }

  /** One pass of the loop body: a tuple the library failed to decode
      changes nothing. */
  function Visit(func: int, t: Tuple): Step {
    if t.parsed then ParseForNetwork(t, func) else Step(func, 0)
  }

  /** The byte a tuple contributes under the running identifier `func`. */
  function Contribution(func: int, t: Tuple): Byte {
    Visit(func, t).n
  }

  /** Reference definition of the running identifier: the function code of
      the last decoded FUNCID tuple of `ts`, or `func` when there is none. */
  function LastFuncId(func: int, ts: seq<Tuple>): int
    decreases |ts|
  {
    if ts == [] then func
    else
      var t := ts[|ts| - 1];
      if t.parsed && t.code == CodeFuncId then t.funcId as int
      else LastFuncId(func, ts[..|ts| - 1])
  }

  /** The loop stops at tuple k: it is END, or it contributes a non-zero byte. */
  predicate StopsAt(func: int, ts: seq<Tuple>, k: int)
    requires 0 <= k < |ts|
  {
    ts[k].code == CodeEnd || Contribution(LastFuncId(func, ts[..k]), ts[k]) != 0
  }

  /** k is the first index at which the loop stops. */
  predicate FirstStop(func: int, ts: seq<Tuple>, k: int) {
    && 0 <= k < |ts|
    && StopsAt(func, ts, k)
    && forall j :: 0 <= j < k ==> !StopsAt(func, ts, j)
  }

  /** The `while` loop of the scan, from the tuple the first-tuple step
      returned onwards. */
  function Walk(func: int, ts: seq<Tuple>, last: ChainEnd): (r: Scan)
    ensures r.networkType.Some? ==> r.rc == 0 && r.networkType.value != 0
    ensures r.rc != 0 ==> last == StepFailed(r.rc) && r.networkType == None
    ensures r.rc != 0 ==> forall j :: 0 <= j < |ts| ==> ts[j].code != CodeEnd
    decreases |ts|
  {
    if ts == [] then
      match last
      case EndTuple => Scan(0, None, func)
      case StepFailed(rc) => Scan(rc, None, func)
    else if ts[0].code == CodeEnd then Scan(0, None, func)
    else
      var s := Visit(func, ts[0]);
      if s.n != 0 then Scan(0, Some(s.n), s.func)
      else Walk(s.func, ts[1..], last)
  }

  /** get_network_type for one socket, with the running identifier passed in
      and handed back explicitly. */
  function GetNetworkType(func: int, cis: Cis): (r: Scan)
    ensures cis.readOut != 0 ==> r == Scan(cis.readOut, None, func)
    ensures r.networkType.Some? ==> r.rc == 0 && r.networkType.value != 0
    ensures r.rc != 0 ==> r.networkType == None
  {
    if cis.readOut != 0 then Scan(cis.readOut, None, func)
    else Walk(func, cis.tuples, cis.last)
  }

  /** Prepending a tuple to a chain is the same as first visiting it. */
  lemma {:induction false} LastFuncIdCons(func: int, t: Tuple, s: seq<Tuple>)
    ensures LastFuncId(func, [t] + s) == LastFuncId(Visit(func, t).func, s)
    decreases |s|
  {
    if s == [] {
      assert [t] + s == [t];
      assert [t][..0] == [];
    } else {
      var u := [t] + s;
      assert u[|u| - 1] == s[|s| - 1];
      assert u[..|u| - 1] == [t] + s[..|s| - 1];
      LastFuncIdCons(func, t, s[..|s| - 1]);
    }
  }

  /** Stopping at j + 1 of a chain is stopping at j of its tail, once the
      head tuple has been visited. */
  lemma StopsAtTail(func: int, ts: seq<Tuple>, j: int)
    requires 0 <= j && j + 1 < |ts|
    ensures StopsAt(func, ts, j + 1) == StopsAt(Visit(func, ts[0]).func, ts[1..], j)
  {
    assert ts[..j + 1] == [ts[0]] + ts[1..][..j];
    LastFuncIdCons(func, ts[0], ts[1..][..j]);
  }

  /** The loop ends at its first stop: at an END tuple with nothing written,
      or at the first non-zero contribution, which is written; the running
      identifier is the last decoded FUNCID before that tuple. */
  lemma {:induction false} WalkEndsAtFirstStop(func: int, ts: seq<Tuple>, last: ChainEnd, k: int)
    requires FirstStop(func, ts, k)
    ensures ts[k].code == CodeEnd ==>
      Walk(func, ts, last) == Scan(0, None, LastFuncId(func, ts[..k]))
    ensures ts[k].code != CodeEnd ==>
      Walk(func, ts, last) == Scan(0, Some(Contribution(LastFuncId(func, ts[..k]), ts[k])), LastFuncId(func, ts[..k]))
    decreases k
  {
    assert ts[..0] == [];
    if k == 0 {
    } else {
      assert !StopsAt(func, ts, 0);
      var f := Visit(func, ts[0]).func;
      forall j | 0 <= j < k - 1
        ensures !StopsAt(f, ts[1..], j)
      {
        assert !StopsAt(func, ts, j + 1);
        StopsAtTail(func, ts, j);
      }
      StopsAtTail(func, ts, k - 1);
      WalkEndsAtFirstStop(f, ts[1..], last, k - 1);
      assert ts[..k] == [ts[0]] + ts[1..][..k - 1];
      LastFuncIdCons(func, ts[0], ts[1..][..k - 1]);
    }
  }

  /** Without a stop the loop runs off the listed tuples: the chain's end
      decides the return code, nothing is written, and the running identifier
      is the last decoded FUNCID of the whole chain. */
  lemma {:induction false} WalkWithoutStop(func: int, ts: seq<Tuple>, last: ChainEnd)
    requires forall j :: 0 <= j < |ts| ==> !StopsAt(func, ts, j)
    ensures Walk(func, ts, last) == Scan(if last.StepFailed? then last.rc else 0, None, LastFuncId(func, ts))
    decreases |ts|
  {
    if ts != [] {
      assert ts[..0] == [];
      assert !StopsAt(func, ts, 0);
      var f := Visit(func, ts[0]).func;
      forall j | 0 <= j < |ts| - 1
        ensures !StopsAt(f, ts[1..], j)
      {
        assert !StopsAt(func, ts, j + 1);
        StopsAtTail(func, ts, j);
      }
      WalkWithoutStop(f, ts[1..], last);
      assert ts == [ts[0]] + ts[1..];
      LastFuncIdCons(func, ts[0], ts[1..]);
    }
  }

  /** If the loop stops somewhere, it has a first stop. */
  lemma {:induction false} FirstStopExists(func: int, ts: seq<Tuple>, k: int)
    requires 0 <= k < |ts| && StopsAt(func, ts, k)
    ensures exists m :: FirstStop(func, ts, m)
    decreases k
  {
    if forall j :: 0 <= j < k ==> !StopsAt(func, ts, j) {
      assert FirstStop(func, ts, k);
    } else {
      var j :| 0 <= j < k && StopsAt(func, ts, j);
      FirstStopExists(func, ts, j);
    }
  }

  /** First non-zero result: the scan writes n exactly when the first tuple
      at which the loop stops is not END and contributes n under the
      running identifier at that point. */
  lemma FoundIsFirstContribution(func: int, cis: Cis, n: Byte)
    requires cis.readOut == 0
    ensures GetNetworkType(func, cis).networkType == Some(n) <==>
      exists k :: FirstStop(func, cis.tuples, k) && cis.tuples[k].code != CodeEnd
        && n == Contribution(LastFuncId(func, cis.tuples[..k]), cis.tuples[k])
  {
    var ts := cis.tuples;
    if exists k :: 0 <= k < |ts| && StopsAt(func, ts, k) {
      var k :| 0 <= k < |ts| && StopsAt(func, ts, k);
      FirstStopExists(func, ts, k);
      var m :| FirstStop(func, ts, m);
      WalkEndsAtFirstStop(func, ts, cis.last, m);
    } else {
      WalkWithoutStop(func, ts, cis.last);
    }
  }

  /** Return code: the scan fails exactly when reading out the CIS fails, or
      when the chain ends in a failing step before the loop stops; the code
      is then the failing call's. */
  lemma NetworkTypeReturnCode(func: int, cis: Cis)
    ensures GetNetworkType(func, cis).rc != 0 <==>
      cis.readOut != 0
      || (cis.last.StepFailed? && forall j :: 0 <= j < |cis.tuples| ==> !StopsAt(func, cis.tuples, j))
    ensures GetNetworkType(func, cis).rc != 0 ==>
      GetNetworkType(func, cis).rc == (if cis.readOut != 0 then cis.readOut else cis.last.rc)
  {
    var ts := cis.tuples;
    if cis.readOut == 0 {
      if exists k :: 0 <= k < |ts| && StopsAt(func, ts, k) {
        var k :| 0 <= k < |ts| && StopsAt(func, ts, k);
        FirstStopExists(func, ts, k);
        var m :| FirstStop(func, ts, m);
        WalkEndsAtFirstStop(func, ts, cis.last, m);
      } else {
        WalkWithoutStop(func, ts, cis.last);
      }
    }
  }

  /** A tuple the library fails to decode is skipped: inserting one anywhere
      in the chain changes neither the result nor the running identifier. */
  lemma {:induction false} UndecodedTupleIsSkipped(func: int, ts: seq<Tuple>, last: ChainEnd, i: int, t: Tuple)
    requires 0 <= i <= |ts|
    requires !t.parsed && t.code != CodeEnd
    ensures Walk(func, ts[..i] + [t] + ts[i..], last) == Walk(func, ts, last)
    decreases i
  {
    var s := ts[..i] + [t] + ts[i..];
    if i == 0 {
      assert s == [t] + ts;
      assert s[1..] == ts;
    } else {
      assert s[0] == ts[0];
      assert s[1..] == ts[1..][..i - 1] + [t] + ts[1..][i - 1..];
      UndecodedTupleIsSkipped(Visit(func, ts[0]).func, ts[1..], last, i - 1, t);
    }
  }

  /** The running identifier is only ever changed by decoded FUNCID tuples:
      a scan over a chain without one hands back the identifier it was given. */
  lemma {:induction false} NoFuncIdKeepsRunningId(func: int, ts: seq<Tuple>, last: ChainEnd)
    requires forall j :: 0 <= j < |ts| ==> !(ts[j].parsed && ts[j].code == CodeFuncId)
    ensures Walk(func, ts, last).func == func
    decreases |ts|
  {
    if ts != [] && ts[0].code != CodeEnd && Visit(func, ts[0]).n == 0 {
      NoFuncIdKeepsRunningId(func, ts[1..], last);
    }
  }

  const NetworkFuncId: Tuple := Tuple(CodeFuncId, true, FuncIdNetwork, 0, 0)
  const FixedDiskFuncId: Tuple := Tuple(CodeFuncId, true, 0x04, 0, 0)

  function LanTechTuple(tech: Byte): Tuple {
    Tuple(CodeFuncE, true, 0, FunceLanTech, tech)
  }

  /** A LAN technology extension under a NETWORK identifier is reported;
      under a fixed-disk identifier it is not, and a zero technology byte is
      never reported. */
  lemma FunctionIdGatingExamples()
    ensures GetNetworkType(0, Cis(0, [NetworkFuncId, LanTechTuple(5)], EndTuple)) == Scan(0, Some(5), FuncIdNetwork as int)
    ensures GetNetworkType(0, Cis(0, [FixedDiskFuncId, LanTechTuple(5)], EndTuple)) == Scan(0, None, 4)
    ensures GetNetworkType(0, Cis(0, [NetworkFuncId, LanTechTuple(0)], EndTuple)) == Scan(0, None, FuncIdNetwork as int)
  {
    var net := FuncIdNetwork as int;
    assert [NetworkFuncId, LanTechTuple(5)][1..] == [LanTechTuple(5)];
    assert [FixedDiskFuncId, LanTechTuple(5)][1..] == [LanTechTuple(5)];
    assert [NetworkFuncId, LanTechTuple(0)][1..] == [LanTechTuple(0)];
    assert [LanTechTuple(0)][1..] == [];
    assert Walk(net, [LanTechTuple(5)], EndTuple) == Scan(0, Some(5), net);
    assert Walk(4, [LanTechTuple(5)], EndTuple) == Walk(4, [], EndTuple);
    assert Walk(net, [LanTechTuple(0)], EndTuple) == Walk(net, [], EndTuple);
  }

  /** The running identifier outlives a scan: after a scan that saw a NETWORK
      identifier, a chain holding only a LAN technology extension reports it,
      while the same chain scanned from the initial identifier 0 does not. */
  lemma RunningIdCarriesOverExample()
    ensures GetNetworkType(0, Cis(0, [NetworkFuncId], EndTuple)).func == FuncIdNetwork as int
    ensures GetNetworkType(FuncIdNetwork as int, Cis(0, [LanTechTuple(3)], EndTuple)).networkType == Some(3)
    ensures GetNetworkType(0, Cis(0, [LanTechTuple(3)], EndTuple)).networkType == None
  {
    assert [NetworkFuncId][1..] == [];
    assert Walk(0, [NetworkFuncId], EndTuple) == Walk(FuncIdNetwork as int, [], EndTuple);
    assert [LanTechTuple(3)][1..] == [];
    assert Walk(0, [LanTechTuple(3)], EndTuple) == Walk(0, [], EndTuple);
  }
}
