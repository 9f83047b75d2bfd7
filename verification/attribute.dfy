/** The attribute reader: one sysfs attribute file of a PCMCIA function,
    read in full up to one page, stripped of a single trailing newline and
    parsed the way `sscanf(value, "0x%X")` parses a well-formed value.
    Opening and reading the file are an oracle answer: the file's content,
    or None when it cannot be opened or read. */
module Attribute {
  import opened Base

  /** Unreadable is the -EINVAL outcome, Malformed the -EIO one. */
  datatype AttrError = Unreadable | Malformed

  /** The return code pccardctl_get_one_f gives for each failure. */
  function ErrorCode(e: AttrError): (rc: int)
    ensures rc < 0
    ensures rc == -EINVAL <==> e == Unreadable
    ensures rc == -EIO <==> e == Malformed
  {
    match e
    case Unreadable => -EINVAL
    case Malformed => -EIO
  }

  /** What read_out_file hands back, as the code is written: the read text,
      a failure, or Undefined when the read returned no byte and the code
      then inspects the byte before its buffer. */
  datatype ReadOutcome = ReadFailed | Text(s: string) | Undefined

  /** The bytes one read of at most `pageSize` bytes returns. */
  function ReadPage(content: string, pageSize: nat): (read: string)
    ensures |read| <= pageSize && |read| <= |content|
    ensures read == content[..|read|]
    ensures |content| <= pageSize ==> read == content
  {
    if |content| <= pageSize then content else content[..pageSize]
  }

  /** read_out_file as written: the newline test looks at byte length-1
      even when length is 0. */
  function ReadOutFileAsWritten(content: Option<string>, pageSize: nat): (r: ReadOutcome)
    ensures content.None? <==> r == ReadFailed
    ensures r == Undefined <==> content.Some? && ReadPage(content.value, pageSize) == []
  {
    match content
    case None => ReadFailed
    case Some(c) =>
      var read := ReadPage(c, pageSize);
      if |read| == 0 then Undefined
      else if read[|read| - 1] == '\n' then Text(read[..|read| - 1])
      else Text(read)
  }

  /** Removes one trailing newline, if there is one. */
  function StripNewline(s: string): (r: string)
    ensures |s| > 0 && s[|s| - 1] == '\n' ==> r + "\n" == s
    ensures !(|s| > 0 && s[|s| - 1] == '\n') ==> r == s
  {
    if |s| > 0 && s[|s| - 1] == '\n' then s[..|s| - 1] else s
  }

  /** read_out_file with the newline test guarded against an empty read. */
  function ReadOutFile(content: Option<string>, pageSize: nat): (r: Option<string>)
    ensures content.None? <==> r.None?
    ensures r.Some? ==>
      var read := ReadPage(content.value, pageSize);
      if |read| > 0 && read[|read| - 1] == '\n' then r.value + "\n" == read else r.value == read
    ensures r.Some? ==> |r.value| <= pageSize
  {
    match content
    case None => None
    case Some(c) => Some(StripNewline(ReadPage(c, pageSize)))
  }

  /** Finding: an empty attribute file is readable, yet the code as written
      inspects the byte before its buffer; the guarded reader yields the
      empty text. */
  lemma EmptyFileReadIsUndefined(pageSize: nat)
    ensures ReadOutFileAsWritten(Some(""), pageSize) == Undefined
    ensures ReadOutFile(Some(""), pageSize) == Some("")
  {
  }

  /** On every read that returns at least one byte the guarded reader is the
      code as written. */
  lemma ReadOutFileAgreesOnNonEmptyRead(content: Option<string>, pageSize: nat)
    requires content.Some? ==> ReadPage(content.value, pageSize) != []
    ensures content.None? ==> ReadOutFileAsWritten(content, pageSize) == ReadFailed && ReadOutFile(content, pageSize) == None
    ensures content.Some? ==> ReadOutFileAsWritten(content, pageSize) == Text(ReadOutFile(content, pageSize).value)
  {
  }

  predicate IsHexDigit(c: char) {
    ('0' <= c <= '9') || ('a' <= c <= 'f') || ('A' <= c <= 'F')
  }

  predicate AllHex(s: string) {
    forall i :: 0 <= i < |s| ==> IsHexDigit(s[i])
  }

  function DigitValue(c: char): (v: nat)
    requires IsHexDigit(c)
    ensures v < 16
  {
    if '0' <= c <= '9' then (c - '0') as nat
    else if 'a' <= c <= 'f' then (c - 'a') as nat + 10
    else (c - 'A') as nat + 10
  }

  /** The value of a string of hex digits, most significant first. */
  function HexValue(d: string): nat
    requires AllHex(d)
    decreases |d|
  {
    if d == [] then 0 else HexValue(d[..|d| - 1]) * 16 + DigitValue(d[|d| - 1])
  }

  /** The longest prefix of hex digits, which %X consumes. */
  function HexRun(s: string): (d: string)
    ensures AllHex(d) && |d| <= |s|
    ensures d == s[..|d|]
    ensures |d| < |s| ==> !IsHexDigit(s[|d|])
    decreases |s|
  {
    if s == [] || !IsHexDigit(s[0]) then [] else [s[0]] + HexRun(s[1..])
  }

  /** sscanf(s, "0x%X") == 1: the literal "0x" followed by at least one hex
      digit, the value being that of the longest run of hex digits. */
  function ScanHex(s: string): (r: Result<nat, AttrError>)
    ensures r.Err? ==> r.error == Malformed
    ensures r.Ok? <==> |s| > 2 && s[0] == '0' && s[1] == 'x' && IsHexDigit(s[2])
  {
    if |s| > 2 && s[0] == '0' && s[1] == 'x' && IsHexDigit(s[2]) then Ok(HexValue(HexRun(s[2..])))
    else Err(Malformed)
  }

  /** pccardctl_get_one_f once the attribute path is resolved to a file:
      read it out, then parse it. */
  function GetOneF(content: Option<string>, pageSize: nat): (r: Result<nat, AttrError>)
    ensures r == Err(Unreadable) <==> content.None?
    ensures content.Some? ==> r == ScanHex(ReadPage(content.value, pageSize))
    ensures content.Some? && |content.value| <= pageSize ==> r == ScanHex(content.value)
  {
    match ReadOutFile(content, pageSize)
    case None => Err(Unreadable)
    case Some(v) =>
      StripNewlineIrrelevant(ReadPage(content.value, pageSize));
      ScanHex(v)
  }

  /** A run of hex digits is not extended by a following non-hex character. */
  lemma {:induction false} HexRunStopsAt(s: string, c: char)
    requires !IsHexDigit(c)
    ensures HexRun(s + [c]) == HexRun(s)
    decreases |s|
  {
    if s != [] && IsHexDigit(s[0]) {
      assert (s + [c])[1..] == s[1..] + [c];
      HexRunStopsAt(s[1..], c);
    }
  }

  /** Removing the trailing newline never changes what the parse yields. */
  lemma StripNewlineIrrelevant(s: string)
    ensures ScanHex(StripNewline(s)) == ScanHex(s)
  {
    if |s| > 0 && s[|s| - 1] == '\n' {
      var r := StripNewline(s);
      assert s == r + ['\n'];
      if |r| > 2 {
        assert s[2..] == r[2..] + ['\n'];
        HexRunStopsAt(r[2..], '\n');
      }
    }
  }

  /** A run of hex digits followed by text that does not start with one is
      read up to the end of the run. */
  lemma {:induction false} HexRunOfDigitsThenRest(d: string, rest: string)
    requires AllHex(d)
    requires rest == [] || !IsHexDigit(rest[0])
    ensures HexRun(d + rest) == d
    decreases |d|
  {
    if d == [] {
      assert d + rest == rest;
    } else {
      assert (d + rest)[0] == d[0];
      assert (d + rest)[1..] == d[1..] + rest;
      HexRunOfDigitsThenRest(d[1..], rest);
    }
  }

  /** Every text made of "0x", a non-empty run of hex digits and anything not
      starting with a hex digit parses to the run's value. */
  lemma ScanHexReadsRun(d: string, rest: string)
    requires |d| > 0 && AllHex(d)
    requires rest == [] || !IsHexDigit(rest[0])
    ensures ScanHex("0x" + d + rest) == Ok(HexValue(d))
  {
    var t := d + rest;
    assert t[0] == d[0];
    HexRunOfDigitsThenRest(d, rest);
    ScanHexAfterPrefix(t);
    ConcatAssoc("0x", d, rest);
  }

  lemma ConcatAssoc<T>(a: seq<T>, b: seq<T>, c: seq<T>)
    ensures a + b + c == a + (b + c)
  {
  }

  lemma ScanHexAfterPrefix(t: string)
    requires |t| > 0 && IsHexDigit(t[0])
    ensures ScanHex("0x" + t) == Ok(HexValue(HexRun(t)))
  {
    var s := "0x" + t;
    assert s[2..] == t;
  }

  function HexChar(v: nat): (c: char)
    requires v < 16
    ensures IsHexDigit(c) && DigitValue(c) == v
  {
    if v < 10 then '0' + v as char else 'A' + (v - 10) as char
  }

  /** n in upper-case hexadecimal without leading zeros, as "%X" prints it. */
  function HexString(n: nat): (s: string)
    ensures |s| > 0 && AllHex(s)
    decreases n
  {
    if n < 16 then [HexChar(n)] else HexString(n / 16) + [HexChar(n % 16)]
  }

  lemma {:induction false} HexValueOfHexString(n: nat)
    ensures HexValue(HexString(n)) == n
    decreases n
  {
    var s := HexString(n);
    if n >= 16 {
      assert s[..|s| - 1] == HexString(n / 16);
      HexValueOfHexString(n / 16);
    }
  }

  /** Round trip: an attribute file holding "0x%X\n" of n reads back as n. */
  lemma AttributeRoundTrip(n: nat, pageSize: nat)
    requires pageSize >= |HexString(n)| + 3
    ensures GetOneF(Some("0x" + HexString(n) + "\n"), pageSize) == Ok(n)
  {
    ScanHexReadsRun(HexString(n), "\n");
    HexValueOfHexString(n);
  }
}
