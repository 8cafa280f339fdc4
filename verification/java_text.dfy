/**
 * The two `java.lang.String` operations the request parser relies on:
 * `split(" ")` and `isBlank()`.
 *
 * `split(" ")` is described in layers.  `SplitAll` cuts a string at every
 * space, so that consecutive spaces give empty tokens; `Join` glues tokens
 * back with single spaces and is its exact inverse.  `JavaSplit` adds the
 * two quirks of the Java method: a string with no space at all comes back
 * whole (even the empty string), and trailing empty tokens are dropped.
 */
module JavaText {

  /** `Character.isWhitespace`: the ASCII controls TAB..CR and FS..US, and the
      Unicode space, line and paragraph separators except the three
      no-break spaces U+00A0, U+2007 and U+202F. */
  predicate IsWhitespace(c: char) {
    var n := c as int;
    || n == 0x20
    || 0x09 <= n <= 0x0D
    || 0x1C <= n <= 0x1F
    || n == 0x1680
    || 0x2000 <= n <= 0x2006
    || 0x2008 <= n <= 0x200A
    || n == 0x2028
    || n == 0x2029
    || n == 0x205F
    || n == 0x3000
  }

  /** `String.isBlank()`: empty, or white space only. */
  predicate IsBlank(s: string) {
    forall i :: 0 <= i < |s| ==> IsWhitespace(s[i])
  }

  /** Java's white space includes the ASCII controls and the ordinary space
      separators, but not the no-break spaces nor NEXT LINE (U+0085). */
  lemma WhitespaceBoundaries()
    ensures IsWhitespace(' ') && IsWhitespace('\t') && IsWhitespace('\n') && IsWhitespace('\r')
    ensures IsWhitespace('\U{000B}') && IsWhitespace('\U{000C}') && IsWhitespace('\U{001F}')
    ensures IsWhitespace('\U{2003}') && IsWhitespace('\U{3000}') && IsWhitespace('\U{2028}')
    ensures !IsWhitespace('\U{00A0}') && !IsWhitespace('\U{2007}') && !IsWhitespace('\U{202F}')
    ensures !IsWhitespace('\U{0085}') && !IsWhitespace('\U{200B}') && !IsWhitespace('a')
  {
  }

  /** A concatenation is blank exactly when both parts are; in particular the
      empty line is blank and one visible character anywhere makes a line
      non-blank. */
  lemma IsBlankConcat(a: string, b: string)
    ensures IsBlank(a + b) <==> IsBlank(a) && IsBlank(b)
  {
    if IsBlank(a + b) {
      forall i | 0 <= i < |a|
        ensures IsWhitespace(a[i])
      {
        assert (a + b)[i] == a[i];
      }
      forall i | 0 <= i < |b|
        ensures IsWhitespace(b[i])
      {
        assert (a + b)[|a| + i] == b[i];
      }
    }
    if IsBlank(a) && IsBlank(b) {
      forall i | 0 <= i < |a + b|
        ensures IsWhitespace((a + b)[i])
      {
        if i < |a| { assert (a + b)[i] == a[i]; } else { assert (a + b)[i] == b[i - |a|]; }
      }
    }
  }

  /** True when no token contains the separator. */
  predicate SpaceFree(ts: seq<string>) {
    forall k :: 0 <= k < |ts| ==> ' ' !in ts[k]
  }

  /** Position of the first occurrence of `c` in `s`. */
  function IndexOf(s: string, c: char): (i: nat)
    requires c in s
    ensures i < |s| && s[i] == c
    ensures c !in s[..i]
  {
    if s[0] == c then 0
    else
      var j := IndexOf(s[1..], c);
      assert s[..j + 1] == [s[0]] + s[1..][..j];
      1 + j
  }

  /** Glues tokens together with one space between neighbours. */
  function Join(ts: seq<string>): (s: string)
    requires |ts| >= 1
    decreases |ts|
  {
    if |ts| == 1 then ts[0] else ts[0] + " " + Join(ts[1..])
  }

  /** Cuts `s` at every space: `n` spaces give `n + 1` tokens, some of which
      may be empty. */
  function SplitAll(s: string): (ts: seq<string>)
    ensures |ts| >= 1
    ensures SpaceFree(ts)
    decreases |s|
  {
    if ' ' !in s then [s]
    else
      var i := IndexOf(s, ' ');
      [s[..i]] + SplitAll(s[i + 1..])
  }

  /** Removes the run of empty tokens at the end of `ts`. */
  function DropTrailingEmpty(ts: seq<string>): (r: seq<string>)
    ensures r <= ts
    ensures |r| > 0 ==> r[|r| - 1] != ""
    ensures forall k :: |r| <= k < |ts| ==> ts[k] == ""
    decreases |ts|
  {
    if |ts| > 0 && ts[|ts| - 1] == "" then DropTrailingEmpty(ts[..|ts| - 1])
    else ts
  }

  /** `String.split(" ")`, i.e. `split(" ", 0)`: when the separator does not
      occur the string itself is the only token; otherwise every space
      separates and trailing empty tokens are removed. */
  function JavaSplit(s: string): (ts: seq<string>)
    ensures SpaceFree(ts)
    ensures |ts| > 0 ==> ts[|ts| - 1] != "" || s == ""
  {
    if ' ' !in s then [s] else DropTrailingEmpty(SplitAll(s))
  }

  // ---------------------------------------------------------------------
  // SplitAll and Join are inverse to each other
  // ---------------------------------------------------------------------

  /** Absence from a prefix, stated position by position. */
  lemma NoneBefore(s: string, c: char, i: nat)
    requires i <= |s| && c !in s[..i]
    ensures forall k :: 0 <= k < i ==> s[k] != c
  {
  }

  /** A space right after a space-free prefix is the first space. */
  lemma IndexOfAfterPrefix(p: string, q: string)
    requires ' ' !in p
    ensures ' ' in p + " " + q
    ensures IndexOf(p + " " + q, ' ') == |p|
  {
    var s := p + " " + q;
    assert s[|p|] == ' ';
    var i := IndexOf(s, ' ');
    assert forall k :: 0 <= k < |p| ==> s[k] == p[k];
    NoneBefore(s, ' ', i);
  }

  /** Joining the pieces of `s` gives back `s`. */
  lemma {:induction false} JoinSplitAll(s: string)
    ensures Join(SplitAll(s)) == s
    decreases |s|
  {
    if ' ' in s {
      var i := IndexOf(s, ' ');
      var head, tail := s[..i], s[i + 1..];
      assert s == head + " " + tail;
      SplitAllCons(head, tail);
      JoinCons(head, SplitAll(tail));
      JoinSplitAll(tail);
    }
  }

  /** Joining a token in front of other tokens puts one space after it. */
  lemma JoinCons(t: string, ts: seq<string>)
    requires |ts| >= 1
    ensures Join([t] + ts) == t + " " + Join(ts)
  {
    assert ([t] + ts)[1..] == ts;
  }

  /** Splitting joined space-free tokens gives back the tokens. */
  lemma {:induction false} SplitAllJoin(ts: seq<string>)
    requires |ts| >= 1 && SpaceFree(ts)
    ensures SplitAll(Join(ts)) == ts
    decreases |ts|
  {
    if |ts| > 1 {
      SplitAllCons(ts[0], Join(ts[1..]));
      SplitAllJoin(ts[1..]);
      assert ts == [ts[0]] + ts[1..];
    }
  }

  /** Appending a space to `s` adds one empty token at the end. */
  lemma {:induction false} SplitAllAppendSpace(s: string)
    ensures SplitAll(s + " ") == SplitAll(s) + [""]
    decreases |s|
  {
    if ' ' !in s {
      assert s + " " == s + " " + "";
      SplitAllCons(s, "");
    } else {
      var i := IndexOf(s, ' ');
      var head, tail := s[..i], s[i + 1..];
      assert SplitAll(s) == [head] + SplitAll(tail) by {
        assert s == head + " " + tail;
        SplitAllCons(head, tail);
      }
      assert SplitAll(s + " ") == [head] + SplitAll(tail + " ") by {
        assert s + " " == head + " " + (tail + " ");
        SplitAllCons(head, tail + " ");
      }
      SplitAllAppendSpace(tail);
      AppendAssoc([head], SplitAll(tail), [""]);
    }
  }

  lemma AppendAssoc<T>(a: seq<T>, b: seq<T>, c: seq<T>)
    ensures a + (b + c) == a + b + c
  {
  }

  /** Joining with one more empty token appends one space. */
  lemma {:induction false} JoinAppendEmpty(ts: seq<string>)
    requires |ts| >= 1
    ensures Join(ts + [""]) == Join(ts) + " "
    decreases |ts|
  {
    if |ts| > 1 {
      assert (ts + [""])[1..] == ts[1..] + [""];
      JoinAppendEmpty(ts[1..]);
    }
  }

  /** Every string that consists only of spaces. */
  predicate AllSpaces(s: string) {
    forall k :: 0 <= k < |s| ==> s[k] == ' '
  }

  /** Joining `ts` followed by empty tokens appends only spaces to `Join(ts)`. */
  lemma {:induction false} JoinTrailingEmpties(ts: seq<string>, n: nat)
    requires |ts| >= 1 && n <= |ts| - 1
    requires forall k :: |ts| - n <= k < |ts| ==> ts[k] == ""
    ensures Join(ts[..|ts| - n]) <= Join(ts)
    ensures AllSpaces(Join(ts)[|Join(ts[..|ts| - n])|..])
    decreases n
  {
    if n > 0 {
      var init := ts[..|ts| - 1];
      assert ts == init + [""];
      JoinAppendEmpty(init);
      assert init[..|init| - (n - 1)] == ts[..|ts| - n];
      JoinTrailingEmpties(init, n - 1);
      var a := Join(ts[..|ts| - n]);
      var b := Join(init);
      assert Join(ts) == b + " ";
      assert Join(ts)[|a|..] == b[|a|..] + " ";
    } else {
      assert ts[..|ts|] == ts;
    }
  }

  // ---------------------------------------------------------------------
  // What JavaSplit means
  // ---------------------------------------------------------------------

  /** Characterisation of `String.split(" ")`: the tokens, joined with single
      spaces, are a prefix of `s` followed only by spaces; no token is lost
      except trailing empty ones; and nothing at all comes back exactly when
      `s` is a non-empty run of spaces. */
  lemma JavaSplitMeaning(s: string)
    ensures |JavaSplit(s)| == 0 <==> s != "" && AllSpaces(s)
    ensures |JavaSplit(s)| > 0 ==>
              Join(JavaSplit(s)) <= s && AllSpaces(s[|Join(JavaSplit(s))|..])
  {
    if ' ' in s {
      assert JavaSplit(s) == DropTrailingEmpty(SplitAll(s));
      if |JavaSplit(s)| > 0 {
        SplitKeepsToken(s);
      } else {
        SplitDropsEverything(s);
      }
    } else {
      var r := JavaSplit(s);
      assert r == [s];
      assert s != "" ==> s[0] != ' ';
      assert s[|s|..] == "";
    }
  }

  /** When a token survives, the joined tokens are a prefix of the line,
      only spaces follow, and the line is not all spaces. */
  lemma SplitKeepsToken(s: string)
    requires |DropTrailingEmpty(SplitAll(s))| > 0
    ensures Join(DropTrailingEmpty(SplitAll(s))) <= s
    ensures AllSpaces(s[|Join(DropTrailingEmpty(SplitAll(s)))|..])
    ensures !AllSpaces(s)
  {
    var all := SplitAll(s);
    var r := DropTrailingEmpty(all);
    assert Join(r) <= s && AllSpaces(s[|Join(r)|..]) by {
      JoinSplitAll(s);
      JoinTrailingEmpties(all, |all| - |r|);
      assert all[..|all| - (|all| - |r|)] == r;
    }
    SpaceFreePrefix(r, all);
    JoinLastToken(r);
    NotAllSpacesPrefix(Join(r), s);
  }

  /** A prefix of space-free tokens is space-free. */
  lemma SpaceFreePrefix(p: seq<string>, ts: seq<string>)
    requires p <= ts && SpaceFree(ts)
    ensures SpaceFree(p)
  {
    forall k | 0 <= k < |p|
      ensures ' ' !in p[k]
    {
      assert p[k] == ts[k];
    }
  }

  /** When every token is dropped, the line is all spaces. */
  lemma SplitDropsEverything(s: string)
    requires |DropTrailingEmpty(SplitAll(s))| == 0
    ensures AllSpaces(s)
  {
    JoinSplitAll(s);
    AllEmptyJoin(SplitAll(s));
  }

  /** A prefix that is not all spaces keeps the whole string from being all
      spaces. */
  lemma NotAllSpacesPrefix(p: string, s: string)
    requires p <= s && !AllSpaces(p)
    ensures !AllSpaces(s)
  {
    var k :| 0 <= k < |p| && p[k] != ' ';
    assert s[k] == p[k];
  }

  /** A non-empty last token shows up as a non-space character of the join. */
  lemma {:induction false} JoinLastToken(ts: seq<string>)
    requires |ts| >= 1 && SpaceFree(ts) && ts[|ts| - 1] != ""
    ensures !AllSpaces(Join(ts))
    decreases |ts|
  {
    if |ts| == 1 {
      assert ts[0][0] != ' ';
    } else {
      JoinLastToken(ts[1..]);
      var j := Join(ts[1..]);
      var k :| 0 <= k < |j| && j[k] != ' ';
      assert Join(ts)[|ts[0]| + 1 + k] == j[k];
    }
  }

  /** Joining only empty tokens gives only spaces. */
  lemma {:induction false} AllEmptyJoin(ts: seq<string>)
    requires |ts| >= 1
    requires forall k :: 0 <= k < |ts| ==> ts[k] == ""
    ensures AllSpaces(Join(ts))
    decreases |ts|
  {
    if |ts| > 1 {
      AllEmptyJoin(ts[1..]);
      assert Join(ts) == " " + Join(ts[1..]);
    }
  }

  /** Joined space-free tokens whose last one is non-empty are split back
      into exactly those tokens. */
  lemma JavaSplitJoin(ts: seq<string>)
    requires |ts| >= 1 && SpaceFree(ts) && ts[|ts| - 1] != ""
    ensures JavaSplit(Join(ts)) == ts
  {
    if |ts| == 1 {
      assert ' ' !in ts[0];
    } else {
      SplitAllJoin(ts);
      var s := Join(ts);
      assert s == ts[0] + " " + Join(ts[1..]);
      assert s[|ts[0]|] == ' ';
    }
  }

  /** Dropping trailing empties ignores one more empty token. */
  lemma DropTrailingEmptyAppend(ts: seq<string>)
    ensures DropTrailingEmpty(ts + [""]) == DropTrailingEmpty(ts)
  {
  }

  /** A trailing space on a non-empty string does not change its tokens
      (this is why `"GET /index.html HTTP/1.1 "` still yields `"HTTP/1.1"`). */
  lemma TrailingSpaceIgnored(s: string)
    requires s != ""
    ensures JavaSplit(s + " ") == JavaSplit(s)
  {
    var t := s + " ";
    assert t[|s|] == ' ';
    SplitAllAppendSpace(s);
    DropTrailingEmptyAppend(SplitAll(s));
    if ' ' !in s {
      assert SplitAll(s) == [s];
    }
  }

  /** Splitting `p + [""]*` style: dropping trailing empties of `p + q` keeps
      all of `p` when `p` ends in a non-empty token. */
  lemma {:induction false} DropTrailingEmptyKeepsPrefix(p: seq<string>, q: seq<string>)
    requires |p| > 0 && p[|p| - 1] != ""
    ensures p <= DropTrailingEmpty(p + q)
  {
    assert (p + q)[|p| - 1] != "";
  }

  /** Splitting a space-free token, a space and the rest cuts off that token. */
  lemma SplitAllCons(t: string, rest: string)
    requires ' ' !in t
    ensures SplitAll(t + " " + rest) == [t] + SplitAll(rest)
  {
    IndexOfAfterPrefix(t, rest);
    var s := t + " " + rest;
    assert s[..|t|] == t;
    assert s[|t| + 1..] == rest;
  }

  /** The three-token join is the familiar `a b c`. */
  lemma JoinThree(a: string, b: string, c: string)
    ensures Join([a, b, c]) == a + " " + b + " " + c
  {
    assert [a, b, c][1..] == [b, c];
    assert [b, c][1..] == [c];
    assert Join([b, c]) == b + " " + c;
    AppendAssoc(a + " ", b + " ", c);
  }

  /** Three single-element prefixes make one three-element prefix. */
  lemma ConsThree<T>(a: T, b: T, c: T, t: seq<T>)
    ensures [a] + ([b] + ([c] + t)) == [a, b, c] + t
  {
  }

  /** A line of three space-free tokens, the last non-empty, followed by a
      space and anything at all, still yields those three tokens first. */
  lemma JavaSplitThreeThenAnything(a: string, b: string, c: string, extra: string)
    requires ' ' !in a && ' ' !in b && ' ' !in c && c != ""
    ensures |JavaSplit(a + " " + b + " " + c + " " + extra)| >= 3
    ensures JavaSplit(a + " " + b + " " + c + " " + extra)[..3] == [a, b, c]
  {
    var s := a + " " + b + " " + c + " " + extra;
    var ce := c + " " + extra;
    var bce := b + " " + ce;
    assert s == a + " " + bce by {
      AppendAssoc(b + " ", c + " ", extra);
      AppendAssoc(a + " ", b + " " + c + " ", extra);
      AppendAssoc(a + " ", b + " ", c + " ");
    }
    SplitAllCons(a, bce);
    SplitAllCons(b, ce);
    SplitAllCons(c, extra);
    var tail := SplitAll(extra);
    ConsThree(a, b, c, tail);
    assert ' ' in s;
    DropTrailingEmptyKeepsPrefix([a, b, c], tail);
  }
}
