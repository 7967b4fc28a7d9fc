/** The text of the wire protocol in geiger_gen2.hpp: the classification of a
    3-byte command (the ckeckReq lambda of serverRecvClbk) and the reply line
    `<value>:<counter>:<available>\n` built with std::to_string, together with
    a parser for that line, as a client reads it. */
module Protocol {
  import opened Common
  import opened Entropy

  const COLON: uint8 := 58
  const NEWLINE: uint8 := 10

  /** ASCII bytes of a literal */
  function Bytes(s: string): (b: seq<uint8>)
    requires forall k :: 0 <= k < |s| ==> s[k] as int < 0x100
    ensures |b| == |s| && forall k :: 0 <= k < |s| ==> b[k] as int == s[k] as int
  {
    if s == [] then [] else [s[0] as int as uint8] + Bytes(s[1..])
  }

  const REQ: seq<uint8> := Bytes("req")
  const END: seq<uint8> := Bytes("end")

  /** ckeckReq: 0 for `req`, 1 for `end`, 2 for anything else */
  function CheckReq(b0: uint8, b1: uint8, b2: uint8): (code: int)
    ensures code == 0 <==> [b0, b1, b2] == REQ
    ensures code == 1 <==> [b0, b1, b2] == END
    ensures code == 2 <==> [b0, b1, b2] != REQ && [b0, b1, b2] != END
  {
    if b0 == 'r' as int as uint8 && b1 == 'e' as int as uint8 && b2 == 'q' as int as uint8 then 0
    else if b0 == 'e' as int as uint8 && b1 == 'n' as int as uint8 && b2 == 'd' as int as uint8 then 1
    else 2
  }

  predicate IsDigit(b: uint8) {
    '0' as int <= b as int <= '9' as int
  }

  predicate AllDigits(s: seq<uint8>) {
    forall k :: 0 <= k < |s| ==> IsDigit(s[k])
  }

  function Digit(d: nat): (b: uint8)
    requires d < 10
    ensures IsDigit(b) && b as int - '0' as int == d
  {
    ('0' as int + d) as uint8
  }

  /** std::to_string of a non-negative number */
  function Decimal(n: nat): (s: seq<uint8>)
    ensures |s| >= 1 && AllDigits(s)
    ensures s[0] == '0' as int as uint8 ==> n == 0
    decreases n
  {
    if n < 10 then [Digit(n)] else Decimal(n / 10) + [Digit(n % 10)]
  }

  /** The number a string of decimal digits denotes */
  function DigitsValue(s: seq<uint8>): nat
    requires AllDigits(s)
  {
    if s == [] then 0 else DigitsValue(s[..|s| - 1]) * 10 + (s[|s| - 1] as int - '0' as int)
  }

  function Pow10(k: nat): (p: nat)
    ensures p >= 1
  {
    if k == 0 then 1 else 10 * Pow10(k - 1)
  }

  lemma {:induction false} DecimalRoundTrip(n: nat)
    ensures DigitsValue(Decimal(n)) == n
    decreases n
  {
    if n >= 10 {
      DecimalRoundTrip(n / 10);
      var s := Decimal(n);
      assert s[..|s| - 1] == Decimal(n / 10);
    }
  }

  /** A number below 10^k has at most k digits */
  lemma {:induction false} DecimalLength(n: nat, k: nat)
    requires k >= 1 && n < Pow10(k)
    ensures |Decimal(n)| <= k
    decreases k
  {
    if n >= 10 {
      assert k >= 2;
      DecimalLength(n / 10, k - 1);
    }
  }

  /** The reply to a `req`, for the popped sample and the queue length read after the pop */
  function Reply(r: Rng, available: nat): (msg: seq<uint8>)
    ensures |msg| >= 6 && msg[|msg| - 1] == NEWLINE
  {
    Decimal(r.value as nat) + [COLON] + Decimal(r.counter as nat) + [COLON] + Decimal(available) + [NEWLINE]
  }

  /** The maximal run of digits at the front of s, and what follows it */
  function TakeDigits(s: seq<uint8>): (r: (seq<uint8>, seq<uint8>))
    ensures r.0 + r.1 == s && AllDigits(r.0)
    ensures r.1 == [] || !IsDigit(r.1[0])
  {
    if s == [] || !IsDigit(s[0]) then ([], s)
    else var (d, t) := TakeDigits(s[1..]); ([s[0]] + d, t)
  }

  /** Reads a line of the form `digits:digits:digits\n` into its three numbers */
  function ParseReply(s: seq<uint8>): Option<(nat, nat, nat)> {
    var (d1, t1) := TakeDigits(s);
    if d1 == [] || t1 == [] || t1[0] != COLON then None
    else
      var (d2, t2) := TakeDigits(t1[1..]);
      if d2 == [] || t2 == [] || t2[0] != COLON then None
      else
        var (d3, t3) := TakeDigits(t2[1..]);
        if d3 == [] || t3 != [NEWLINE] then None
        else Some((DigitsValue(d1), DigitsValue(d2), DigitsValue(d3)))
  }

  lemma {:induction false} TakeDigitsPrefix(d: seq<uint8>, t: seq<uint8>)
    requires AllDigits(d)
    requires t == [] || !IsDigit(t[0])
    ensures TakeDigits(d + t) == (d, t)
    decreases |d|
  {
    if d != [] {
      assert (d + t)[0] == d[0] && (d + t)[1..] == d[1..] + t;
      TakeDigitsPrefix(d[1..], t);
      assert [d[0]] + d[1..] == d;
    } else {
      assert d + t == t;
    }
  }

  /** A reply reads back as the sample value, its counter and the queue length */
  lemma ReplyRoundTrip(r: Rng, available: nat)
    ensures ParseReply(Reply(r, available)) == Some((r.value as nat, r.counter as nat, available))
  {
    var v, c, n := Decimal(r.value as nat), Decimal(r.counter as nat), Decimal(available);
    var t3 := [NEWLINE];
    var t2 := [COLON] + (n + t3);
    var t1 := [COLON] + (c + t2);
    assert Reply(r, available) == v + t1;
    TakeDigitsPrefix(v, t1);
    assert t1[0] == COLON && t1[1..] == c + t2;
    TakeDigitsPrefix(c, t2);
    assert t2[0] == COLON && t2[1..] == n + t3;
    TakeDigitsPrefix(n, t3);
    DecimalRoundTrip(r.value as nat);
    DecimalRoundTrip(r.counter as nat);
    DecimalRoundTrip(available);
  }

  /** The first field has one or two digits; the whole line is at most 20 bytes
      while the reported length stays below 100000. */
  lemma ReplyLength(r: Rng, available: nat)
    requires r.value as int <= INVALID_RESULT
    requires available < 100000
    ensures 1 <= |Decimal(r.value as nat)| <= 2
    ensures |Reply(r, available)| <= 20
  {
    assert Pow10(2) == 100;
    DecimalLength(r.value as nat, 2);
    assert Pow10(10) == 10000000000;
    DecimalLength(r.counter as nat, 10);
    assert Pow10(5) == 100000;
    DecimalLength(available, 5);
  }
}
