/** Reading the sweep's output (the loop of processResults in main.go):
    every line is trimmed with strings.TrimSpace and submitted for probing
    only when net.ParseIP accepts it. ParseIP is a library parser and is
    given here as an uninterpreted predicate `isIP`. */
module Candidates {

  /** unicode.IsSpace: the Latin-1 spaces and the other White_Space code points. */
  predicate IsSpace(c: char) {
    || c == '\t' || c == '\n' || c == '\U{000B}' || c == '\U{000C}' || c == '\r' || c == ' '
    || c == '\U{0085}' || c == '\U{00A0}' || c == '\U{1680}'
    || ('\U{2000}' <= c <= '\U{200A}')
    || c == '\U{2028}' || c == '\U{2029}' || c == '\U{202F}' || c == '\U{205F}' || c == '\U{3000}'
  }

  predicate AllSpace(s: string) {
    forall k :: 0 <= k < |s| ==> IsSpace(s[k])
  }

  /** s without its leading spaces. */
  function TrimLeft(s: string): (r: string)
    ensures |r| <= |s| && r == s[|s| - |r|..]
    ensures AllSpace(s[..|s| - |r|])
    ensures r == [] || !IsSpace(r[0])
  {
    if s != [] && IsSpace(s[0]) then TrimLeft(s[1..]) else s
  }

  /** s without its trailing spaces. */
  function TrimRight(s: string): (r: string)
    ensures |r| <= |s| && r == s[..|r|]
    ensures AllSpace(s[|r|..])
    ensures r == [] || !IsSpace(r[|r| - 1])
  {
    if s != [] && IsSpace(s[|s| - 1]) then TrimRight(s[..|s| - 1]) else s
  }

  /** strings.TrimSpace: the middle of s, between a run of leading and a run
      of trailing spaces, neither end of which is a space. */
  function TrimSpace(s: string): (r: string)
    ensures r == [] || (!IsSpace(r[0]) && !IsSpace(r[|r| - 1]))
    ensures exists i, j :: 0 <= i <= j <= |s| && r == s[i..j] && AllSpace(s[..i]) && AllSpace(s[j..])
  {
    var left := TrimLeft(s);
    var r := TrimRight(left);
    var i, j := |s| - |left|, |s| - |left| + |r|;
    assert r == s[i..j];
    assert s[j..] == left[|r|..];
    r
  }

  /** Trimming is idempotent. */
  lemma TrimSpaceIdempotent(s: string)
    ensures TrimSpace(TrimSpace(s)) == TrimSpace(s)
  {
  }

  /** The addresses submitted for a sequence of lines, in line order. */
  function Submitted(lines: seq<string>, isIP: string -> bool): (r: seq<string>)
    ensures |r| <= |lines|
    ensures forall k :: 0 <= k < |r| ==> isIP(r[k])
  {
    if lines == [] then []
    else
      var ip := TrimSpace(lines[|lines| - 1]);
      Submitted(lines[..|lines| - 1], isIP) + (if isIP(ip) then [ip] else [])
  }

  /** The loop of processResults (main.go:305-313), with pool.Submit replaced
      by appending to the list of submitted addresses. */
  method SubmitCandidates(lines: seq<string>, isIP: string -> bool) returns (submitted: seq<string>)
    ensures submitted == Submitted(lines, isIP)
  {
    submitted := [];
    var n := 0;
    while n < |lines|
      invariant 0 <= n <= |lines|
      invariant submitted == Submitted(lines[..n], isIP)
    {
      var ip := TrimSpace(lines[n]);
      if isIP(ip) {
        submitted := submitted + [ip];
      }
      assert lines[..n + 1][..n] == lines[..n];
      n := n + 1;
    }
    assert lines[..n] == lines;
  }

  /** Each line is judged on its own: the submissions for a concatenation
      are those of its parts, in order. */
  lemma {:induction false} SubmittedAppend(a: seq<string>, b: seq<string>, isIP: string -> bool)
    ensures Submitted(a + b, isIP) == Submitted(a, isIP) + Submitted(b, isIP)
    decreases |b|
  {
    if b == [] {
      assert a + b == a;
    } else {
      var b' := b[..|b| - 1];
      assert (a + b)[..|a + b| - 1] == a + b';
      assert (a + b)[|a + b| - 1] == b[|b| - 1];
      SubmittedAppend(a, b', isIP);
    }
  }

  /** An address is submitted exactly when some line trims to it and
      ParseIP accepts it. */
  lemma {:induction false} SubmittedMembers(lines: seq<string>, isIP: string -> bool, ip: string)
    ensures ip in Submitted(lines, isIP) <==>
      isIP(ip) && exists k :: 0 <= k < |lines| && TrimSpace(lines[k]) == ip
    decreases |lines|
  {
    if lines != [] {
      var init := lines[..|lines| - 1];
      SubmittedMembers(init, isIP, ip);
      if isIP(ip) && TrimSpace(lines[|lines| - 1]) != ip {
        if k :| 0 <= k < |lines| && TrimSpace(lines[k]) == ip {
          assert k < |lines| - 1 && TrimSpace(init[k]) == ip;
        }
      }
      if k :| 0 <= k < |init| && TrimSpace(init[k]) == ip {
        assert TrimSpace(lines[k]) == ip;
      }
    }
  }

  /** Blank and all-space lines are never submitted, given that ParseIP
      rejects the empty string. */
  lemma BlankLinesSkipped(line: string, isIP: string -> bool)
    requires AllSpace(line)
    requires !isIP("")
    ensures Submitted([line], isIP) == []
  {
    assert [line][..0] == [];
  }
}
