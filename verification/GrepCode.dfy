/** grep.c's matcher with its cursors, and its reader, which keeps the unfinished line at the front of
    a buffer of 1024 characters. */
module GrepCode {
  import opened Grep

  const BUFFER_SIZE: nat := 1024

  // ---- matching ----------------------------------------------------------------------------

  method MatchHere(re: string, text: string) returns (r: bool)
    ensures r == Here(re, text)
    decreases |re|, |text|, 0
  {
    if re == "" {
      return true;
    }
    if |re| > 1 && re[1] == '*' {
      r := MatchStar(re[0], re[2..], text);
      return;
    }
    if re[0] == '$' && |re| == 1 {
      return text == "";
    }
    if text != "" && (re[0] == '.' || re[0] == text[0]) {
      r := MatchHere(re[1..], text[1..]);
      return;
    }
    r := false;
  }

  method MatchStar(c: char, re: string, text: string) returns (r: bool)
    ensures r == Run(c, re, text)
    decreases |re|, |text|, 1
  {
    var j := 0;
    while true
      invariant j <= |text| && Run(c, re, text[j..]) == Run(c, re, text)
      decreases |text| - j
    {
      r := MatchHere(re, text[j..]);
      if r {
        return;
      }
      if j == |text| || !(text[j] == c || c == '.') {
        return false;
      }
      assert text[j..][1..] == text[j + 1..];
      j := j + 1;
    }
  }

  /** match decides what the pattern means. */
  method Match(re: string, text: string) returns (r: bool)
    ensures r <==> Matches(re, text)
  {
    hide Begins;
    hide Here;
    if re != "" && re[0] == '^' {
      HereIsBegins(re[1..], text);
      r := MatchHere(re[1..], text);
      return;
    }
    var i := 0;
    while true
      invariant i <= |text| && forall j :: 0 <= j < i ==> !Begins(Parse(re), text[j..])
      decreases |text| - i
    {
      HereIsBegins(re, text[i..]);
      r := MatchHere(re, text[i..]);
      if r || i == |text| {
        return;
      }
      i := i + 1;
    }
  }

  // ---- reading -----------------------------------------------------------------------------

  // buf[..m] is what has been read and not yet dropped: the beginning of s.
  ghost predicate Holds(b: seq<char>, s: string, p: nat, m: nat) {
    p <= m < |b| && m <= |s| && b[p..m] == s[p..m] && forall i :: p <= i < m ==> s[i] != '\0'
  }

  // There is no newline from p to m.
  ghost predicate Unfinished(s: string, p: nat, m: nat) { m <= |s| && forall i :: p <= i < m ==> s[i] != '\n' }

  // strchr(p, '\n'); m if there is none.
  method FindNewline(buf: array<char>, p: nat, m: nat) returns (q: nat)
    requires p <= m < buf.Length && buf[m] == '\0' && forall i :: p <= i < m ==> buf[i] != '\0'
    ensures p <= q <= m && (q < m ==> buf[q] == '\n') && forall i :: p <= i < q ==> buf[i] != '\n'
  {
    q := p;
    while buf[q] != '\n' && buf[q] != '\0'
      invariant p <= q <= m && forall i :: p <= i < q ==> buf[i] != '\n'
      decreases m - q
    {
      q := q + 1;
    }
  }

  lemma HeldAt(b: seq<char>, s: string, p: nat, m: nat)
    requires Holds(b, s, p, m)
    ensures p <= m < |b| && m <= |s| && forall i :: p <= i < m ==> b[i] == s[i] && b[i] != '\0'
  {
    forall i | p <= i < m ensures b[i] == s[i] { assert b[p..m][i - p] == s[p..m][i - p]; }
  }

  lemma HeldFrom(b: seq<char>, s: string, p: nat, m: nat, b': seq<char>, q: nat)
    requires Holds(b, s, p, m) && p <= q <= m && |b'| == |b| && b'[q..m] == b[q..m]
    ensures Holds(b', s, q, m)
  {
    assert b[q..m] == b[p..m][q - p..] && s[q..m] == s[p..m][q - p..];
  }

  // The line from p to the newline at q.
  lemma LineAt(re: string, b: seq<char>, s: string, p: nat, q: nat, m: nat)
    requires Holds(b, s, p, m) && p <= q < m <= 1023 && b[q] == '\n' && forall i :: p <= i < q ==> b[i] != '\n'
    ensures b[p..q] == s[p..q] && b[p..q + 1] == s[p..q + 1]
    ensures Output(re, s[p..]) == (if Matches(re, s[p..q]) then s[p..q + 1] else "") + Output(re, s[q + 1..])
  {
    hide Matches;
    hide Output;
    HeldAt(b, s, p, m);
    var r := s[p..];
    OutputLine(re, r, q - p);
    assert r[..q - p] == s[p..q] && r[..q - p + 1] == s[p..q + 1] && r[q - p + 1..] == s[q + 1..];
    assert b[p..q] == s[p..q] && b[p..q + 1] == s[p..q + 1];
  }

  /** The inner loop: every whole line in the buffer is printed if it matches; the cursor ends up at
      the unfinished one. */
  method PrintLines(re: string, buf: array<char>, m: nat, ghost s: string) returns (p: nat, out: string)
    requires buf.Length == 1024 && m <= 1023 && buf[m] == '\0' && Holds(buf[..], s, 0, m)
    modifies buf
    ensures p <= m && Holds(buf[..], s, p, m) && buf[m] == '\0' && Unfinished(s, p, m)
    ensures out + Output(re, s[p..]) == Output(re, s)
  {
    hide Matches;
    hide Output;
    hide Holds;
    p, out := 0, "";
    assert s[0..] == s;
    HeldAt(buf[..], s, 0, m);
    var q := FindNewline(buf, p, m);
    while q < m
      invariant p <= q <= m && buf[m] == '\0' && Holds(buf[..], s, p, m) && (q < m ==> buf[q] == '\n')
      invariant forall i :: p <= i < q ==> buf[i] != '\n'
      invariant out + Output(re, s[p..]) == Output(re, s)
      decreases m - p
    {
      ghost var b := buf[..];
      LineAt(re, b, s, p, q, m);
      buf[q] := '\0';
      assert buf[p..q] == b[p..q];
      var matched := Match(re, buf[p..q]);
      ghost var line := if Matches(re, s[p..q]) then s[p..q + 1] else "";
      PrintAssoc(out, line, Output(re, s[q + 1..]));
      if matched {
        buf[q] := '\n';
        assert buf[p..q + 1] == b[p..q + 1];
        out := out + buf[p..q + 1];
      }
      assert buf[..][q + 1..m] == b[q + 1..m];
      HeldFrom(b, s, p, m, buf[..], q + 1);
      assert out + Output(re, s[q + 1..]) == Output(re, s);
      p := q + 1;
      HeldAt(buf[..], s, p, m);
      q := FindNewline(buf, p, m);
    }
    HeldAt(buf[..], s, p, m);
  }

  lemma PrintAssoc(out: string, line: string, rest: string)
    ensures out + (line + rest) == (out + line) + rest && out + "" == out
  {
  }

  // memmove(buf, p, m - p).
  method MoveDown(buf: array<char>, p: nat, m: nat)
    requires p <= m <= buf.Length
    modifies buf
    ensures buf[..m - p] == old(buf[p..m])
  {
    var i := 0;
    while i < m - p
      invariant i <= m - p && buf[..i] == old(buf[p..p + i])
      invariant forall k :: p + i <= k < m ==> buf[k] == old(buf[k])
    {
      buf[i] := buf[p + i];
      i := i + 1;
    }
  }

  // read: puts the next n characters of the input into the buffer.
  method Read(buf: array<char>, at: nat, input: string, pos: nat, n: nat)
    requires at + n <= buf.Length && pos + n <= |input|
    modifies buf
    ensures buf[..at] == old(buf[..at]) && buf[at..at + n] == input[pos..pos + n]
  {
    var i := 0;
    while i < n
      invariant i <= n && buf[..at] == old(buf[..at]) && buf[at..at + i] == input[pos..pos + i]
    {
      buf[at + i] := input[pos + i];
      i := i + 1;
    }
  }

  // How many characters the k-th read returns: none without room or at the end of the input, and
  // otherwise anything from one to what is there.
  function ReadSize(sizes: nat -> nat, k: nat, room: nat, left: nat): (n: nat)
    ensures n <= room && n <= left && (n == 0 <==> room == 0 || left == 0)
  {
    var most := if room < left then room else left;
    if most == 0 then 0 else 1 + sizes(k) % most
  }

  /** However read splits the input, grep prints the matching lines before the first one that does
      not fit the buffer. */
  method PrintMatches(re: string, buf: array<char>, input: string, sizes: nat -> nat) returns (out: string)
    requires buf.Length == BUFFER_SIZE && forall i :: 0 <= i < |input| ==> input[i] != '\0'
    modifies buf
    ensures out == Output(re, input)
  {
    hide Output;
    hide Holds;
    var m: nat, pos: nat, k: nat := 0, 0, 0;
    out := "";
    assert input[0..] == input;
    Nothing(buf[..], input);
    var n := ReadSize(sizes, k, buf.Length - m - 1, |input| - pos);
    while n > 0
      invariant m <= pos <= |input| && m <= 1023 && n == ReadSize(sizes, k, 1023 - m, |input| - pos)
      invariant Holds(buf[..], input[pos - m..], 0, m) && Unfinished(input[pos - m..], 0, m)
      invariant out + Output(re, input[pos - m..]) == Output(re, input)
      decreases |input| - pos
    {
      ghost var s, b := input[pos - m..], buf[..];
      Read(buf, m, input, pos, n);
      Refilled(b, buf[..], input, pos, m, n);
      m, pos := m + n, pos + n;
      b := buf[..];
      buf[m] := '\0';
      assert buf[..][0..m] == b[0..m];
      HeldFrom(b, s, 0, m, buf[..], 0);
      var p, printed := PrintLines(re, buf, m, s);
      PrintAssoc(out, printed, Output(re, s[p..]));
      out := out + printed;
      b := buf[..];
      if m > 0 {
        MoveDown(buf, p, m);
        assert buf[..][..m - p] == buf[..m - p];
        Moved(b, buf[..], s, p, m);
        assert s[p..] == input[pos - (m - p)..];
        m := m - p;
      }
      k := k + 1;
      n := ReadSize(sizes, k, buf.Length - m - 1, |input| - pos);
    }
    OutputEnds(re, input[pos - m..], m);
    PrintAssoc(out, "", "");
  }

  lemma Nothing(b: seq<char>, s: string)
    requires |b| > 0
    ensures Holds(b, s, 0, 0)
  {
  }

  lemma Refilled(b: seq<char>, b': seq<char>, input: string, pos: nat, m: nat, n: nat)
    requires m <= pos && pos + n <= |input| && |b'| == |b| && m + n < |b| && Holds(b, input[pos - m..], 0, m)
    requires b'[..m] == b[..m] && b'[m..m + n] == input[pos..pos + n] && forall i :: 0 <= i < |input| ==> input[i] != '\0'
    ensures Holds(b', input[pos - m..], 0, m + n)
  {
    var s := input[pos - m..];
    assert s[m..m + n] == input[pos..pos + n];
    assert b'[0..m + n] == b'[..m] + b'[m..m + n];
    assert s[0..m + n] == s[0..m] + s[m..m + n];
    assert b[0..m] == b[..m];
  }

  lemma Moved(b: seq<char>, b': seq<char>, s: string, p: nat, m: nat)
    requires Holds(b, s, p, m) && |b'| == |b| && b'[..m - p] == b[p..m] && Unfinished(s, p, m)
    ensures Holds(b', s[p..], 0, m - p) && Unfinished(s[p..], 0, m - p)
  {
    assert s[p..][0..m - p] == s[p..m] && b'[0..m - p] == b'[..m - p];
  }
}
