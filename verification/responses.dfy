/**
 * The response a handler produces, and the text it is written as.
 *
 * A handler either serves a page (`Ok`, status 200) or redirects
 * (`Found`, status 302).  `Serialize` reproduces the wire format the
 * handler tests pin down, with a space before the CRLF that ends the
 * status line and each header line;
 * `Deserialize` reads that format back, and the two are proved inverse.
 */
module Responses {
  import opened Outcomes

  datatype Response = Ok(body: string) | Found(location: string)

  // ---------------------------------------------------------------------
  // Byte length of a body (`String.getBytes()` in UTF-8)
  // ---------------------------------------------------------------------

  /** Number of UTF-8 bytes that encode `c`. */
  function Utf8Width(c: char): (w: nat)
    ensures 1 <= w <= 4
    ensures w == 1 <==> (c as int) < 0x80
  {
    var n := c as int;
    if n < 0x80 then 1 else if n < 0x800 then 2 else if n < 0x1_0000 then 3 else 4
  }

  /** Number of UTF-8 bytes that encode `s`: at least one and at most four
      per character, and exactly one per character for ASCII text. */
  function Utf8Length(s: string): (n: nat)
    ensures |s| <= n <= 4 * |s|
    ensures n == |s| <==> forall i :: 0 <= i < |s| ==> (s[i] as int) < 0x80
  {
    if |s| == 0 then 0
    else
      var rest := Utf8Length(s[1..]);
      assert forall i :: 1 <= i < |s| ==> s[i] == s[1..][i - 1];
      Utf8Width(s[0]) + rest
  }

  // ---------------------------------------------------------------------
  // Decimal numerals for Content-Length
  // ---------------------------------------------------------------------

  predicate IsDigit(c: char) {
    '0' <= c <= '9'
  }

  predicate AllDigits(s: string) {
    forall i :: 0 <= i < |s| ==> IsDigit(s[i])
  }

  function DigitChar(d: nat): (c: char)
    requires d < 10
    ensures IsDigit(c)
  {
    ('0' as int + d) as char
  }

  function DigitValue(c: char): (d: nat)
    requires IsDigit(c)
    ensures d < 10
  {
    (c as int) - ('0' as int)
  }

  /** `Integer.toString` for a non-negative value: decimal, no leading zero. */
  function NatToDecimal(n: nat): (s: string)
    ensures |s| >= 1 && AllDigits(s)
    ensures |s| > 1 ==> s[0] != '0'
    decreases n
  {
    if n < 10 then [DigitChar(n)]
    else
      var prefix := NatToDecimal(n / 10);
      prefix + [DigitChar(n % 10)]
  }

  /** The value of a decimal numeral. */
  function DecimalValue(s: string): nat
    requires AllDigits(s)
    decreases |s|
  {
    if |s| == 0 then 0
    else DecimalValue(s[..|s| - 1]) * 10 + DigitValue(s[|s| - 1])
  }

  /** Reading back a written number gives the number. */
  lemma {:induction false} DecimalRoundTrip(n: nat)
    ensures DecimalValue(NatToDecimal(n)) == n
    decreases n
  {
    if n >= 10 {
      var s := NatToDecimal(n);
      var prefix := NatToDecimal(n / 10);
      assert s[..|s| - 1] == prefix;
      DecimalRoundTrip(n / 10);
    }
  }

  /** Length of the run of digits at the start of `s`. */
  function DigitRun(s: string): (k: nat)
    ensures k <= |s|
    ensures AllDigits(s[..k])
    ensures k < |s| ==> !IsDigit(s[k])
    decreases |s|
  {
    if |s| == 0 || !IsDigit(s[0]) then 0
    else
      var k := DigitRun(s[1..]);
      assert s[..k + 1] == [s[0]] + s[1..][..k];
      k + 1
  }

  /** The digit run of a numeral followed by a non-digit is the numeral. */
  lemma DigitRunOf(d: string, t: string)
    requires AllDigits(d) && |t| > 0 && !IsDigit(t[0])
    ensures DigitRun(d + t) == |d|
  {
    var s := d + t;
    var k := DigitRun(s);
    assert s[|d|] == t[0];
    assert forall i :: 0 <= i < |d| ==> s[i] == d[i];
    assert forall i :: 0 <= i < k ==> IsDigit(s[i]) by {
      forall i | 0 <= i < k
        ensures IsDigit(s[i])
      {
        assert s[..k][i] == s[i];
      }
    }
  }

  // ---------------------------------------------------------------------
  // Wire format
  // ---------------------------------------------------------------------

  const CRLF: string := "\r\n"
  const OkStatusLine: string := "HTTP/1.1 200 OK " + CRLF
  const FoundStatusLine: string := "HTTP/1.1 302 FOUND " + CRLF

  /** Status line and the fixed headers of a page response, up to the
      Content-Length value. */
  const OkHead: string :=
    OkStatusLine + ("Content-Type: text/html;charset=utf-8 " + CRLF) + "Content-Length: "

  /** Status line and the Location header of a redirect, up to the path. */
  const FoundHead: string := FoundStatusLine + "Location: http://localhost:8080/"

  /** End of the last header line followed by the empty line. */
  const HeadEnd: string := " " + CRLF + CRLF

  /** The text a response is written as: status line, header lines, each
      ending in a space and CRLF, an empty line, then the body.  A page
      carries its UTF-8 byte length as Content-Length. */
  function Serialize(r: Response): string {
    match r
    case Ok(body) => OkHead + NatToDecimal(Utf8Length(body)) + HeadEnd + body
    case Found(path) => FoundHead + path + HeadEnd
  }

  /** Reads a serialized response back; `None` for any other text. */
  function Deserialize(s: string): Option<Response> {
    if FoundShaped(s) then Some(Found(s[|FoundHead|..|s| - |HeadEnd|]))
    else if OkHead <= s then ReadOkTail(s[|OkHead|..])
    else None
  }

  /** The redirect head, a path, and the header terminator. */
  predicate FoundShaped(s: string) {
    FoundHead <= s && |s| >= |FoundHead| + |HeadEnd| && s[|s| - |HeadEnd|..] == HeadEnd
  }

  /** Reads what follows the page head: the Content-Length digits, the
      header terminator, and a body of exactly that many bytes. */
  function ReadOkTail(rest: string): Option<Response> {
    var k := DigitRun(rest);
    if k > 0 && HeadEnd <= rest[k..] then
      var body := rest[k + |HeadEnd|..];
      if Utf8Length(body) == DecimalValue(rest[..k]) then Some(Ok(body)) else None
    else None
  }

  /** A page response never looks like a redirect: the status codes differ
      in their first digit. */
  lemma OkIsNotFound(s: string)
    requires OkHead <= s
    ensures !FoundShaped(s)
  {
    assert OkHead[9] == '2' && FoundHead[9] == '3';
    assert s[9] == OkHead[9];
  }

  lemma RoundTripFound(path: string)
    ensures Deserialize(Serialize(Found(path))) == Some(Found(path))
  {
  }

  /** The tail of a page response reads back as that page. */
  lemma ReadOkTailRoundTrip(body: string)
    ensures ReadOkTail(NatToDecimal(Utf8Length(body)) + (HeadEnd + body)) == Some(Ok(body))
  {
    var n := Utf8Length(body);
    var d := NatToDecimal(n);
    var tail := HeadEnd + body;
    var rest := d + tail;
    assert DigitRun(rest) == |d| by {
      assert tail[0] == ' ';
      DigitRunOf(d, tail);
    }
    assert HeadEnd <= rest[|d|..] by {
      assert rest[|d|..] == tail;
    }
    assert rest[|d| + |HeadEnd|..] == body by {
      assert rest[|d|..] == tail;
      assert tail[|HeadEnd|..] == body;
    }
    assert DecimalValue(rest[..|d|]) == n by {
      assert rest[..|d|] == d;
      DecimalRoundTrip(n);
    }
  }

  lemma RoundTripOk(body: string)
    ensures Deserialize(Serialize(Ok(body))) == Some(Ok(body))
  {
    var s := Serialize(Ok(body));
    var rest := NatToDecimal(Utf8Length(body)) + (HeadEnd + body);
    assert s == OkHead + rest;
    assert s[|OkHead|..] == rest;
    OkIsNotFound(s);
    ReadOkTailRoundTrip(body);
  }

  /** Every response is read back from its serialization. */
  lemma SerializeRoundTrip(r: Response)
    ensures Deserialize(Serialize(r)) == Some(r)
  {
    match r
    case Found(path) => RoundTripFound(path);
    case Ok(body) => RoundTripOk(body);
  }

  /** The redirect of the login and registration tests, line by line as the
      tests join it. */
  lemma SerializeFoundMatchesTest()
    ensures Serialize(Found("index.html"))
            == "HTTP/1.1 302 FOUND " + "\r\n"
               + "Location: http://localhost:8080/index.html " + "\r\n"
               + "" + "\r\n"
               + ""
  {
  }

  /** A page, line by line as the page tests join it: the Content-Length is
      the body's UTF-8 byte count. */
  lemma SerializeOkMatchesTest(body: string)
    ensures Serialize(Ok(body))
            == "HTTP/1.1 200 OK " + "\r\n"
               + "Content-Type: text/html;charset=utf-8 " + "\r\n"
               + "Content-Length: " + NatToDecimal(Utf8Length(body)) + " " + "\r\n"
               + "" + "\r\n"
               + body
  {
  }

  /** Different responses are written differently. */
  lemma SerializeInjective(a: Response, b: Response)
    requires Serialize(a) == Serialize(b)
    ensures a == b
  {
    SerializeRoundTrip(a);
    SerializeRoundTrip(b);
  }
}
