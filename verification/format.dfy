/** The two formatters of a device record.  Output is modelled unbounded:
    the caller's buffer size, and the truncation snprintf applies when it is
    too small, are not part of the model. */
module Format {
  import opened Base
  import opened Devices

  /** Rendered text and the count the formatter returns. */
  datatype Rendered = Rendered(text: string, count: nat)

  const LocationPrefix: string := "PCMCIA location : "

  predicate IsDigit(c: char) {
    '0' <= c <= '9'
  }

  predicate AllDigits(s: string) {
    forall i :: 0 <= i < |s| ==> IsDigit(s[i])
  }

  /** n in decimal without leading zeros, as "%u" prints it. */
  function Decimal(n: nat): (s: string)
    ensures |s| > 0 && AllDigits(s)
    ensures s[0] == '0' ==> n == 0
    decreases n
  {
    if n < 10 then ['0' + n as char] else Decimal(n / 10) + ['0' + (n % 10) as char]
  }

  /** The value of a string of decimal digits, most significant first. */
  function DecimalValue(s: string): nat
    requires AllDigits(s)
    decreases |s|
  {
    if s == [] then 0 else DecimalValue(s[..|s| - 1]) * 10 + (s[|s| - 1] - '0') as nat
  }

  lemma {:induction false} DecimalRoundTrip(n: nat)
    ensures DecimalValue(Decimal(n)) == n
    decreases n
  {
    var s := Decimal(n);
    if n >= 10 {
      assert s[..|s| - 1] == Decimal(n / 10);
      DecimalRoundTrip(n / 10);
    }
  }

  /** unparse_pcmcia_name: "<socket>.<function>", returning its length. */
  function UnparsePcmciaName(d: Device): (r: Rendered)
    ensures r.count == |r.text|
    ensures r.text == Decimal(d.socket) + "." + Decimal(d.fn)
  {
    var text := Decimal(d.socket) + "." + Decimal(d.fn);
    Rendered(text, |text|)
  }

  /** unparse_pcmcia_device: the location line, returning the sum of the
      three counts written. */
  function UnparsePcmciaDevice(d: Device): (r: Rendered)
    ensures r.count == |r.text|
    ensures r.text == LocationPrefix + UnparsePcmciaName(d).text + "\n"
  {
    var name := UnparsePcmciaName(d);
    Rendered(LocationPrefix + name.text + "\n", |LocationPrefix| + name.count + 1)
  }

  /** Splits a text at its first '.'. */
  function SplitAtDot(s: string): (r: Option<(string, string)>)
    ensures r.Some? ==> s == r.value.0 + "." + r.value.1 && '.' !in r.value.0
    decreases |s|
  {
    if s == [] then None
    else if s[0] == '.' then Some(([], s[1..]))
    else
      match SplitAtDot(s[1..])
      case None => None
      case Some((a, b)) => Some(([s[0]] + a, b))
  }

  /** Reads a location name back into (socket, function). */
  function ParseName(s: string): Option<(nat, nat)> {
    match SplitAtDot(s)
    case None => None
    case Some((a, b)) =>
      if a != [] && b != [] && AllDigits(a) && AllDigits(b) then Some((DecimalValue(a), DecimalValue(b)))
      else None
  }

  lemma {:induction false} SplitAtFirstDot(a: string, b: string)
    requires '.' !in a
    ensures SplitAtDot(a + "." + b) == Some((a, b))
    decreases |a|
  {
    var s := a + "." + b;
    if a == [] {
      assert s == "." + b;
      assert s[1..] == b;
    } else {
      assert s[0] == a[0];
      assert s[1..] == a[1..] + "." + b;
      SplitAtFirstDot(a[1..], b);
      assert [a[0]] + a[1..] == a;
    }
  }

  /** A location name determines the record's socket and function. */
  lemma NameRoundTrip(d: Device)
    ensures ParseName(UnparsePcmciaName(d).text) == Some((d.socket, d.fn))
  {
    var a := Decimal(d.socket);
    assert forall i :: 0 <= i < |a| ==> a[i] != '.';
    SplitAtFirstDot(a, Decimal(d.fn));
    DecimalRoundTrip(d.socket);
    DecimalRoundTrip(d.fn);
  }

  /** The location line holds the name between the fixed prefix and the
      newline, so it too determines socket and function. */
  lemma DeviceLineRoundTrip(d: Device)
    ensures var line := UnparsePcmciaDevice(d).text;
      |line| > |LocationPrefix| && line[..|LocationPrefix|] == LocationPrefix && line[|line| - 1] == '\n'
      && ParseName(line[|LocationPrefix|..|line| - 1]) == Some((d.socket, d.fn))
  {
    var line := UnparsePcmciaDevice(d).text;
    var name := UnparsePcmciaName(d).text;
    assert line[|LocationPrefix|..|line| - 1] == name;
    NameRoundTrip(d);
  }

  /** Socket 2, function 1. */
  lemma FormatExample()
    ensures UnparsePcmciaName(Device(2, 1, None, None)) == Rendered("2.1", 3)
    ensures UnparsePcmciaDevice(Device(2, 1, None, None)) == Rendered("PCMCIA location : 2.1\n", 22)
  {
  }
}
