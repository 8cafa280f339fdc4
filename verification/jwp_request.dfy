/**
 * The request-line parser `JwpHttpRequest.of`.
 *
 * The reader is modelled as the sequence of lines `readLine` would return;
 * running past its end is the `null` the Java code receives.  The parser
 * reads the request line, splits it on single spaces, keeps tokens 0, 1 and
 * 2 as method, URI and HTTP version, then discards header lines up to and
 * including the first blank one.  Each way the Java code can throw, other
 * than an `IOException` from `readLine`, is a distinct `ParseError`, in the
 * order the code meets them.
 */
module JwpRequest {
  import opened Outcomes
  import opened JavaText

  /** An immutable parsed request line; the destructors are the getters
      `getMethod`, `getUri` and `getHttpVersion`. */
  datatype Request = Request(httpMethod: string, uri: string, httpVersion: string)

  datatype ParseError =
    | NoRequestLine        // first readLine() is null: IllegalArgumentException
    | MissingToken         // fewer than three tokens: ArrayIndexOutOfBoundsException
    | UnterminatedHeaders  // input ends before a blank line: NullPointerException

  /** Some line of `lines` is blank. */
  predicate HasBlank(lines: seq<string>) {
    exists i :: 0 <= i < |lines| && IsBlank(lines[i])
  }

  /** The header loop: skips non-blank lines, then the blank one, and returns
      what is left unread; fails when the lines run out first. */
  function SkipHeaders(lines: seq<string>): (r: Result<seq<string>, ParseError>)
    ensures r.Success? <==> HasBlank(lines)
    ensures r.Failure? ==> r.error == UnterminatedHeaders
    ensures r.Success? ==>
              exists i :: 0 <= i < |lines| && IsBlank(lines[i])
                          && (forall j :: 0 <= j < i ==> !IsBlank(lines[j]))
                          && r.value == lines[i + 1..]
    decreases |lines|
  {
    if |lines| == 0 then Failure(UnterminatedHeaders)
    else if IsBlank(lines[0]) then Success(lines[1..])
    else
      var r := SkipHeaders(lines[1..]);
      if r.Success? then
        var i :| 0 <= i < |lines[1..]| && IsBlank(lines[1..][i])
                 && (forall j :: 0 <= j < i ==> !IsBlank(lines[1..][j]))
                 && r.value == lines[1..][i + 1..];
        assert lines[i + 1 + 1..] == lines[1..][i + 1..];
        r
      else
        assert forall i :: 1 <= i < |lines| ==> lines[i] == lines[1..][i - 1];
        r
  }

  /** `JwpHttpRequest.of`. */
  function Parse(lines: seq<string>): (r: Result<Request, ParseError>)
    ensures r == Failure(NoRequestLine) <==> |lines| == 0
    ensures r == Failure(MissingToken) <==> |lines| > 0 && |JavaSplit(lines[0])| < 3
    ensures r == Failure(UnterminatedHeaders) <==>
              |lines| > 0 && |JavaSplit(lines[0])| >= 3 && !HasBlank(lines[1..])
    ensures r.Success? ==>
              var ts := JavaSplit(lines[0]);
              |ts| >= 3 && r.value == Request(ts[0], ts[1], ts[2])
  {
    if |lines| == 0 then Failure(NoRequestLine)
    else
      var infos := JavaSplit(lines[0]);
      if |infos| < 3 then Failure(MissingToken)
      else
        match SkipHeaders(lines[1..])
        case Failure(e) => Failure(e)
        case Success(_) => Success(Request(infos[0], infos[1], infos[2]))
  }

  /** The same parser written as the Java loop: `readLine` until a blank
      line, with the end of input playing the part of `null`. */
  method ReadRequest(lines: seq<string>) returns (r: Result<Request, ParseError>)
    ensures r == Parse(lines)
  {
    if |lines| == 0 {
      return Failure(NoRequestLine);
    }
    var infos := JavaSplit(lines[0]);
    if |infos| < 3 {
      return Failure(MissingToken);
    }
    var pos := 1;
    while pos < |lines| && !IsBlank(lines[pos])
      invariant 1 <= pos <= |lines|
      invariant forall j :: 1 <= j < pos ==> !IsBlank(lines[j])
    {
      pos := pos + 1;
    }
    HeaderLoopExit(lines, pos);
    if pos == |lines| {
      return Failure(UnterminatedHeaders);
    }
    return Success(Request(infos[0], infos[1], infos[2]));
  }

  /** Where the header loop of `ReadRequest` stops decides the parse: at the
      end of input it is `UnterminatedHeaders`, at a blank line success. */
  lemma HeaderLoopExit(lines: seq<string>, pos: nat)
    requires |lines| > 0 && |JavaSplit(lines[0])| >= 3
    requires 1 <= pos <= |lines|
    requires forall j :: 1 <= j < pos ==> !IsBlank(lines[j])
    requires pos < |lines| ==> IsBlank(lines[pos])
    ensures pos == |lines| ==> Parse(lines) == Failure(UnterminatedHeaders)
    ensures pos < |lines| ==>
              var ts := JavaSplit(lines[0]);
              Parse(lines) == Success(Request(ts[0], ts[1], ts[2]))
  {
    if pos == |lines| {
      assert !HasBlank(lines[1..]) by {
        assert forall i :: 0 <= i < |lines[1..]| ==> lines[1..][i] == lines[i + 1];
      }
    } else {
      assert SkipHeaders(lines[1..]).Success? by {
        assert IsBlank(lines[1..][pos - 1]);
      }
    }
  }

  // ---------------------------------------------------------------------
  // Properties of the parser
  // ---------------------------------------------------------------------

  /** A well-formed request line followed by any header lines and a blank
      line parses to exactly its three parts, whatever follows the blank
      line (a blank line among the headers only ends them earlier);
      a trailing space on the request line, as every request line of the
      handler tests has (`"GET /index.html HTTP/1.1 "`), changes nothing. */
  lemma ParseWellFormed(m: string, u: string, v: string,
                        headers: seq<string>, body: seq<string>)
    requires ' ' !in m && ' ' !in u && ' ' !in v && v != ""
    ensures Parse([m + " " + u + " " + v] + headers + [""] + body)
            == Success(Request(m, u, v))
    ensures Parse([m + " " + u + " " + v + " "] + headers + [""] + body)
            == Success(Request(m, u, v))
  {
    var line := m + " " + u + " " + v;
    var rest := headers + [""] + body;
    ParseWellFormedPlain(m, u, v, headers, body);
    LinesShape([line], headers, body);
    LinesShape([line + " "], headers, body);
    ParseTrailingSpace(line, rest);
  }

  /** Re-bracketing of request lines: the request line, then the rest. */
  lemma LinesShape<T>(first: seq<T>, headers: seq<T>, body: seq<T>)
    ensures forall blank: T :: first + headers + [blank] + body == first + (headers + [blank] + body)
  {
  }

  lemma ParseWellFormedPlain(m: string, u: string, v: string,
                             headers: seq<string>, body: seq<string>)
    requires ' ' !in m && ' ' !in u && ' ' !in v && v != ""
    ensures Parse([m + " " + u + " " + v] + headers + [""] + body)
            == Success(Request(m, u, v))
  {
    var lines := [m + " " + u + " " + v] + headers + [""] + body;
    JavaSplitJoin([m, u, v]);
    JoinThree(m, u, v);
    assert lines[0] == m + " " + u + " " + v;
    assert lines[1..][|headers|] == "";
  }

  /** A trailing space on the request line never changes the outcome. */
  lemma ParseTrailingSpace(line: string, rest: seq<string>)
    ensures Parse([line + " "] + rest) == Parse([line] + rest)
  {
    var a, b := [line + " "] + rest, [line] + rest;
    assert a[1..] == rest && b[1..] == rest;
    if line != "" {
      TrailingSpaceIgnored(line);
    } else {
      assert JavaSplit(line) == [""];
      assert JavaSplit(line + " ") == [] by {
        JavaSplitMeaning(line + " ");
      }
    }
  }

  /** Tokens after the third are ignored. */
  lemma ParseExtraTokens(m: string, u: string, v: string, extra: string,
                         rest: seq<string>)
    requires ' ' !in m && ' ' !in u && ' ' !in v && v != ""
    ensures Parse([m + " " + u + " " + v + " " + extra] + rest)
            == Parse([m + " " + u + " " + v] + rest)
  {
    var long := m + " " + u + " " + v + " " + extra;
    var short := m + " " + u + " " + v;
    JavaSplitThreeThenAnything(m, u, v, extra);
    JavaSplitJoin([m, u, v]);
    JoinThree(m, u, v);
    assert ([long] + rest)[1..] == rest;
    assert ([short] + rest)[1..] == rest;
  }

  /** A header line with one visible character anywhere in it does not end
      the headers, however much white space surrounds that character. */
  lemma VisibleCharContinuesHeaders(pre: string, c: char, post: string, rest: seq<string>)
    requires !IsWhitespace(c)
    ensures SkipHeaders([pre + [c] + post] + rest) == SkipHeaders(rest)
  {
    IsBlankConcat(pre + [c], post);
    IsBlankConcat(pre, [c]);
    assert !IsBlank([c]) by { assert [c][0] == c; }
    assert ([pre + [c] + post] + rest)[1..] == rest;
  }

  /** Header lines are consumed without effect: once a blank line is
      present, only the request line decides the result. */
  lemma ParseIgnoresHeaders(line: string, rest1: seq<string>, rest2: seq<string>)
    requires HasBlank(rest1) && HasBlank(rest2)
    ensures Parse([line] + rest1) == Parse([line] + rest2)
  {
  }
}
