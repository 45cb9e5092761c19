/** execute_full_command, execute_pipeline and parse_command in their own form: the line is copied
    into a buffer that is cut in place with NULs, and the pieces are remembered by where they start. */
module ShellExecCode {
  import opened Options
  import opened ShellGrammar
  import opened ShellSplit

  const BUFFER_SIZE: nat := 4096
  const MAX_GROUPS: nat := 100
  const MAX_PIPES: nat := 100
  const MAX_ARGS: nat := 256

  // strncpy(buffer, input, sizeof(buffer) - 1), and the last character NUL.
  method CopyIn(input: string) returns (buf: array<char>)
    ensures fresh(buf) && buf.Length == 4096
    ensures buf[..|Cut(input)|] == Cut(input) && forall i :: |Cut(input)| <= i < 4096 ==> buf[i] == '\0'
  {
    buf := new char[BUFFER_SIZE](i => if 0 <= i < |input| && i < BUFFER_SIZE - 1 then input[i] else '\0');
  }

  // A C string t stands at p.
  ghost predicate StringAt(b: seq<char>, p: nat, t: string) {
    p + |t| < |b| && b[p..p + |t|] == t && b[p + |t|] == '\0' && NulFree(t)
  }

  lemma StringStays(b: seq<char>, p: nat, t: string, n: nat)
    requires n <= |b| && StringAt(b[..n], p, t)
    ensures StringAt(b, p, t)
  {
    assert b[..n][p..p + |t|] == b[p..p + |t|];
  }

  // Reading a C string back from the buffer: what a callee sees of the pointer.
  method ReadString(buf: array<char>, p: nat, ghost t: string) returns (s: string)
    requires StringAt(buf[..], p, t)
    ensures s == t
  {
    var end := p;
    assert forall k :: 0 <= k < |t| ==> t[k] in t && buf[..][p..p + |t|][k] == t[k] && t[k] != '\0';
    while buf[end] != '\0'
      invariant p <= end <= p + |t|
      decreases p + |t| - end
    {
      end := end + 1;
    }
    s := buf[p..end];
  }

  // ---- cutting at pipes --------------------------------------------------------------------

  // The strings that start at starts[0..n] are the texts.
  ghost predicate StringsAt(b: seq<char>, starts: seq<nat>, texts: seq<string>) {
    |starts| == |texts| && forall k :: 0 <= k < |starts| ==> StringAt(b, starts[k], texts[k])
  }

  lemma StringsStay(b: seq<char>, n: nat, starts: seq<nat>, texts: seq<string>)
    requires n <= |b| && StringsAt(b[..n], starts, texts)
    ensures StringsAt(b, starts, texts)
  {
    forall k | 0 <= k < |starts| ensures StringAt(b, starts[k], texts[k]) { StringStays(b, starts[k], texts[k], n); }
  }

  lemma {:induction false} FindIs(s: string, ops: string, k: nat)
    requires k <= |s| && (k < |s| ==> s[k] in ops) && forall i :: 0 <= i < k ==> s[i] !in ops
    ensures Find(s, ops) == k
  {
    if k > 0 { FindIs(s[1..], ops, k - 1); }
  }

  // The piece from start to ptr, in front of a bar or at the end.
  lemma PieceFrom(s: string, start: nat, ptr: nat)
    requires start <= ptr <= |s| && (ptr < |s| ==> s[ptr] == '|') && forall i :: start <= i < ptr ==> s[i] != '|'
    ensures Pieces(s[start..]) == if ptr == |s| then [s[start..ptr]] else [s[start..ptr]] + Pieces(s[ptr + 1..])
  {
    var r := s[start..];
    FindIs(r, "|", ptr - start);
    assert r[..ptr - start] == s[start..ptr];
    if ptr < |s| { assert r[ptr - start + 1..] == s[ptr + 1..]; } else { assert r == s[start..ptr]; }
  }

  lemma NewString(b: seq<char>, s: string, start: nat, ptr: nat)
    requires start <= ptr <= |s| && ptr + 1 == |b| && b[start..ptr] == s[start..ptr] && b[ptr] == '\0' && NulFree(s)
    ensures StringAt(b, start, s[start..ptr])
  {
    var t := s[start..ptr];
    assert forall k :: 0 <= k < |t| ==> t[k] in s;
  }

  lemma StringsPush(b: seq<char>, n: nat, starts: seq<nat>, texts: seq<string>, p: nat, t: string)
    requires n <= |b| && StringsAt(b[..n], starts, texts) && StringAt(b, p, t)
    ensures StringsAt(b, starts + [p], texts + [t])
  {
    StringsStay(b, n, starts, texts);
  }

  /** execute_pipeline's loop over the buffer: the commands are the pieces between the bars. */
  method SplitPipes(buf: array<char>, commands: array<nat>, ghost s: string) returns (count: nat)
    requires buf.Length == 4096 && StringAt(buf[..], 0, s) && |Pieces(s)| <= commands.Length
    modifies buf, commands
    ensures 0 < count == |Pieces(s)| && StringsAt(buf[..], commands[..count], Pieces(s))
  {
    hide StringAt;
    hide StringsAt;
    hide NulFree;
    hide Pieces;
    Letters(buf[..], s);
    count := 0;
    var start, ptr := 0, 0;
    ghost var done: seq<string> := [];
    NoStrings(buf[..0]);
    assert s[0..] == s && [] + Pieces(s) == Pieces(s);
    while buf[ptr] != '\0'
      invariant 0 <= start <= ptr <= |s| < 4096 && buf[|s|] == '\0' && count <= commands.Length
      invariant forall i :: start <= i < |s| ==> buf[i] == s[i] && s[i] != '\0'
      invariant forall i :: start <= i < ptr ==> s[i] != '|'
      invariant StringsAt(buf[..start], commands[..count], done) && count == |done| && Pieces(s) == done + Pieces(s[start..])
      decreases |s| - ptr
    {
      if buf[ptr] == '|' {
        PieceFrom(s, start, ptr);
        buf[ptr] := '\0';
        RecordPiece(buf, commands, start, ptr, count, s, done);
        Assoc(done, [s[start..ptr]], Pieces(s[ptr + 1..]));
        done := done + [s[start..ptr]];
        count := count + 1;
        start := ptr + 1;
      }
      ptr := ptr + 1;
    }
    PieceFrom(s, start, ptr);
    RecordPiece(buf, commands, start, ptr, count, s, done);
    StringsStay(buf[..], ptr + 1, commands[..count + 1], done + [s[start..ptr]]);
    count := count + 1;
  }

  // commands[cmd_count++] = start, for the piece that has just been ended at ptr.
  method RecordPiece(buf: array<char>, commands: array<nat>, start: nat, ptr: nat, count: nat, ghost s: string, ghost done: seq<string>)
    requires start <= ptr <= |s| < buf.Length && buf[ptr] == '\0' && NulFree(s) && count < commands.Length
    requires (forall i :: start <= i < ptr ==> buf[i] == s[i]) && StringsAt(buf[..start], commands[..count], done)
    modifies commands
    ensures commands[..count + 1] == old(commands[..count]) + [start]
    ensures StringsAt(buf[..ptr + 1], commands[..count + 1], done + [s[start..ptr]])
  {
    hide StringAt;
    hide StringsAt;
    hide NulFree;
    commands[count] := start;
    ghost var b := buf[..ptr + 1];
    NewString(b, s, start, ptr);
    assert b[..start] == buf[..start] && commands[..count + 1] == commands[..count] + [start];
    StringsPush(b, start, commands[..count], done, start, s[start..ptr]);
  }

  lemma NoStrings(b: seq<char>)
    ensures StringsAt(b, [], [])
  {
  }

  lemma Letters(b: seq<char>, s: string)
    requires StringAt(b, 0, s)
    ensures |s| < |b| && b[|s|] == '\0' && NulFree(s) && forall i :: 0 <= i < |s| ==> b[i] == s[i] && s[i] != '\0'
  {
    assert forall i :: 0 <= i < |s| ==> b[i] == b[0..|s|][i] && s[i] in s;
  }

  // ---- cutting at semicolons and ampersands ------------------------------------------------

  ghost predicate JobsAt(b: seq<char>, starts: seq<nat>, flags: seq<bool>, js: seq<Job>) {
    |starts| == |js| == |flags| && forall k :: 0 <= k < |js| ==> StringAt(b, starts[k], js[k].text) && flags[k] == js[k].background
  }

  lemma JobsStay(b: seq<char>, n: nat, starts: seq<nat>, flags: seq<bool>, js: seq<Job>)
    requires n <= |b| && JobsAt(b[..n], starts, flags, js)
    ensures JobsAt(b, starts, flags, js)
  {
    forall k | 0 <= k < |js| ensures StringAt(b, starts[k], js[k].text) { StringStays(b, starts[k], js[k].text, n); }
  }

  lemma JobsPush(b: seq<char>, n: nat, starts: seq<nat>, flags: seq<bool>, js: seq<Job>, p: nat, j: Job)
    requires n <= |b| && JobsAt(b[..n], starts, flags, js) && StringAt(b, p, j.text)
    ensures JobsAt(b, starts + [p], flags + [j.background], js + [j])
  {
    JobsStay(b, n, starts, flags, js);
  }

  lemma NoJobs(b: seq<char>)
    ensures JobsAt(b, [], [], [])
  {
  }

  // The group from start to ptr, in front of a separator or at the end.
  lemma JobFrom(s: string, start: nat, ptr: nat)
    requires start <= ptr <= |s| && (ptr < |s| ==> s[ptr] == ';' || s[ptr] == '&')
    requires forall i :: start <= i < ptr ==> s[i] != ';' && s[i] != '&'
    ensures Jobs(s[start..]) == if ptr == |s| then Cutting(s[start..ptr], false)
                                else Cutting(s[start..ptr], s[ptr] == '&') + Jobs(SkipSpaces(s[ptr + 1..]))
  {
    var r := s[start..];
    FindIs(r, ";&", ptr - start);
    assert r[..ptr - start] == s[start..ptr];
    if ptr < |s| { assert r[ptr - start + 1..] == s[ptr + 1..]; } else { assert r == s[start..ptr]; }
  }

  // The first n characters of the group t are still there, behind them is a NUL.
  ghost predicate Trimming(b: seq<char>, start: nat, t: string, n: nat) {
    && start + |t| < |b| && n <= |t| && TrimEnd(t[..n]) == TrimEnd(t) && b[start + n] == '\0'
    && forall i :: 0 <= i < n ==> b[start + i] == t[i]
  }

  lemma TrimmingStarts(b: seq<char>, start: nat, t: string)
    requires start + |t| < |b| && b[start..start + |t|] == t && b[start + |t|] == '\0'
    ensures Trimming(b, start, t, |t|)
  {
    assert t[..|t|] == t;
    forall i | 0 <= i < |t| ensures b[start + i] == t[i] { assert b[start..start + |t|][i] == b[start + i]; }
  }

  lemma TrimmingSteps(b: seq<char>, start: nat, t: string, n: nat)
    requires Trimming(b, start, t, n + 1) && start + n < |b| && IsSpace(b[start + n])
    ensures Trimming(b[start + n := '\0'], start, t, n)
  {
    assert t[..n + 1][..n] == t[..n];
  }

  lemma TrimmingEnds(b: seq<char>, start: nat, t: string, n: nat)
    requires Trimming(b, start, t, n) && (n > 0 ==> start + n <= |b| && !IsSpace(b[start + n - 1])) && NulFree(t)
    ensures StringAt(b, start, TrimEnd(t))
  {
    hide NulFree;
    hide IsSpace;
    hide TrimEnd;
    var u := t[..n];
    if n > 0 { assert u[|u| - 1] == b[start + n - 1]; }
    NothingToTrim(u);
    PieceNulFree(t, 0, n);
    assert t[0..n] == u;
    SameLetters(b, start, u);
  }

  lemma SameLetters(b: seq<char>, start: nat, u: string)
    requires start + |u| <= |b| && forall i :: 0 <= i < |u| ==> b[start + i] == u[i]
    ensures b[start..start + |u|] == u
  {
  }

  /** The trimming loop: the blanks at the end of a group become NULs, and nothing before the group
      or behind its end changes. */
  method TrimInPlace(buf: array<char>, start: nat, ptr: nat, ghost t: string)
    requires start + |t| == ptr < buf.Length && buf[start..ptr] == t && buf[ptr] == '\0' && NulFree(t)
    modifies buf
    ensures buf[..start] == old(buf[..start]) && buf[ptr..] == old(buf[ptr..])
    ensures StringAt(buf[..ptr + 1], start, TrimEnd(t))
  {
    hide NulFree;
    hide Trimming;
    hide StringAt;
    var end: int := ptr - 1;
    assert buf[..ptr + 1][start..ptr] == buf[start..ptr];
    TrimmingStarts(buf[..ptr + 1], start, t);
    while end >= start && IsSpace(buf[end])
      invariant start - 1 <= end < ptr && Trimming(buf[..ptr + 1], start, t, end + 1 - start)
      invariant buf[..start] == old(buf[..start]) && buf[ptr..] == old(buf[ptr..])
    {
      ghost var b := buf[..ptr + 1];
      TrimmingSteps(b, start, t, end - start);
      buf[end] := '\0';
      assert buf[..ptr + 1] == b[end := '\0'];
      end := end - 1;
    }
    TrimmingEnds(buf[..ptr + 1], start, t, end + 1 - start);
  }

  lemma NothingToTrim(u: string)
    requires u != "" ==> !IsSpace(u[|u| - 1])
    ensures TrimEnd(u) == u
  {
  }

  lemma TrimmedIsEmpty(b: seq<char>, start: nat, t: string)
    requires StringAt(b, start, TrimEnd(t))
    ensures start < |b| && (b[start] == '\0' <==> TrimEnd(t) == "")
  {
    var u := TrimEnd(t);
    if u != "" { assert u[0] in u && b[start..start + |u|][0] == b[start]; }
  }

  // Skipping the blanks behind a separator.
  method SkipSpacesIn(buf: array<char>, p: nat, ghost s: string) returns (q: nat)
    requires p <= |s| < buf.Length && buf[|s|] == '\0' && forall i :: p <= i < |s| ==> buf[i] == s[i] && s[i] != '\0'
    ensures p <= q <= |s| && s[q..] == SkipSpaces(s[p..]) && forall i :: p <= i < q ==> IsSpace(s[i])
  {
    q := p;
    while buf[q] != '\0' && IsSpace(buf[q])
      invariant p <= q <= |s| && SkipSpaces(s[q..]) == SkipSpaces(s[p..]) && forall i :: p <= i < q ==> IsSpace(s[i])
      decreases |s| - q
    {
      assert s[q..][1..] == s[q + 1..];
      q := q + 1;
    }
  }

  // What is still to be cut is as it was; the cursor may be among the blanks before the group.
  ghost predicate Ahead(b: seq<char>, s: string, start: nat, ptr: nat) {
    && |b| == 4096 && |s| < 4096 && start <= |s| && ptr <= |s| && b[|s|] == '\0'
    && (forall i :: start <= i < |s| ==> b[i] == s[i] && s[i] != '\0') && (forall i :: ptr <= i < |s| ==> b[i] == s[i] && s[i] != '\0')
    && (forall i :: start <= i < ptr ==> s[i] != ';' && s[i] != '&') && (forall i :: ptr <= i < start ==> IsSpace(s[i]))
  }

  lemma AheadStep(b: seq<char>, s: string, start: nat, ptr: nat)
    requires Ahead(b, s, start, ptr) && b[ptr] != '\0' && b[ptr] != ';' && b[ptr] != '&'
    ensures Ahead(b, s, start, ptr + 1)
  {
  }

  lemma AheadAt(b: seq<char>, s: string, start: nat, ptr: nat)
    requires Ahead(b, s, start, ptr)
    ensures b[ptr] == '\0' <==> ptr == |s|
    ensures ptr == |s| || s[ptr] == ';' || s[ptr] == '&' ==> start <= ptr
    ensures ptr < |s| ==> b[ptr] == s[ptr]
  {
  }

  lemma AheadAtStart(b: seq<char>, s: string)
    requires StringAt(b, 0, s) && |b| == 4096
    ensures Ahead(b, s, 0, 0)
  {
    Letters(b, s);
  }

  // What has been found so far: the groups before start are recorded in the arrays.
  ghost predicate Recorded(b: seq<char>, starts: seq<nat>, flags: seq<bool>, s: string, start: nat, done: seq<Job>) {
    start <= |s| && start <= |b| && JobsAt(b[..start], starts, flags, done) && Jobs(s) == done + Jobs(s[start..])
  }

  lemma NothingRecorded(b: seq<char>, s: string)
    ensures Recorded(b, [], [], s, 0, [])
  {
    NoJobs(b[..0]);
    assert s[0..] == s && [] + Jobs(s) == Jobs(s);
  }

  /** execute_full_command's loop over the buffer: the groups between the separators, trimmed, each
      with its background flag; empty ones are dropped. */
  method SplitGroups(buf: array<char>, groups: array<nat>, backgrounds: array<bool>, ghost s: string) returns (count: nat)
    requires buf.Length == 4096 && StringAt(buf[..], 0, s) && |Jobs(s)| <= groups.Length == backgrounds.Length
    modifies buf, groups, backgrounds
    ensures count == |Jobs(s)| && JobsAt(buf[..], groups[..count], backgrounds[..count], Jobs(s))
  {
    hide StringAt;
    hide JobsAt;
    hide NulFree;
    hide Jobs;
    hide Ahead;
    hide Recorded;
    count := 0;
    var start, ptr := 0, 0;
    ghost var done: seq<Job> := [];
    AheadAtStart(buf[..], s);
    InBuffer(buf[..], s, 0, 0);
    NulFreeString(buf[..], s);
    NothingRecorded(buf[..], s);
    assert groups[..0] == [] && backgrounds[..0] == [];
    while buf[ptr] != '\0'
      invariant ptr <= |s| < buf.Length && Ahead(buf[..], s, start, ptr) && count <= groups.Length && count == |done|
      invariant Recorded(buf[..], groups[..count], backgrounds[..count], s, start, done)
      decreases |s| - ptr
    {
      AheadAt(buf[..], s, start, ptr);
      if buf[ptr] == ';' || buf[ptr] == '&' {
        count, start, done := CutAt(buf, groups, backgrounds, start, ptr, count, s, done);
        InBuffer(buf[..], s, start, ptr + 1);
      } else {
        AheadStep(buf[..], s, start, ptr);
        InBuffer(buf[..], s, start, ptr + 1);
      }
      ptr := ptr + 1;
    }
    InBuffer(buf[..], s, start, ptr);
    AheadAt(buf[..], s, start, ptr);
    count := LastGroup(buf, groups, backgrounds, start, ptr, count, s, done);
  }

  lemma InBuffer(b: seq<char>, s: string, start: nat, ptr: nat)
    requires Ahead(b, s, start, ptr)
    ensures start <= |s| && ptr <= |s| < |b| == 4096
  {
  }

  lemma NulFreeString(b: seq<char>, s: string)
    requires StringAt(b, 0, s)
    ensures NulFree(s)
  {
  }

  lemma AheadPiece(b: seq<char>, s: string, start: nat, ptr: nat)
    requires Ahead(b, s, start, ptr) && start <= ptr
    ensures forall i :: start <= i < ptr ==> b[i] == s[i] && s[i] != ';' && s[i] != '&'
  {
  }

  lemma AheadAfter(b: seq<char>, b': seq<char>, s: string, start: nat, ptr: nat)
    requires Ahead(b, s, start, ptr) && ptr < |s| && |b'| == |b| && b'[ptr + 1..] == b[ptr + 1..]
    ensures b'[|s|] == '\0' && forall i :: ptr + 1 <= i < |s| ==> b'[i] == s[i] && s[i] != '\0'
  {
    assert forall i :: ptr + 1 <= i < |b| ==> b'[i] == b'[ptr + 1..][i - ptr - 1] && b[i] == b[ptr + 1..][i - ptr - 1];
  }

  // One separator: the group before it is cut off, and the next one starts behind the blanks.
  method CutAt(buf: array<char>, groups: array<nat>, backgrounds: array<bool>, start: nat, ptr: nat, count: nat,
               ghost s: string, ghost done: seq<Job>)
    returns (count': nat, start': nat, ghost done': seq<Job>)
    requires buf.Length == 4096 && Ahead(buf[..], s, start, ptr) && start <= ptr < |s| && NulFree(s)
    requires (s[ptr] == ';' || s[ptr] == '&') && buf[ptr] == s[ptr] && |Jobs(s)| <= groups.Length == backgrounds.Length
    requires count == |done| <= groups.Length && Recorded(buf[..], groups[..count], backgrounds[..count], s, start, done)
    modifies buf, groups, backgrounds
    ensures Ahead(buf[..], s, start', ptr + 1) && count' == |done'| <= groups.Length
    ensures Recorded(buf[..], groups[..count'], backgrounds[..count'], s, start', done')
  {
    hide StringAt;
    hide JobsAt;
    hide NulFree;
    hide Jobs;
    hide Ahead;
    hide Cutting;
    hide SkipSpaces;
    InBuffer(buf[..], s, start, ptr);
    var sep := buf[ptr];
    ghost var b := buf[..];
    AheadPiece(b, s, start, ptr);
    JobFrom(s, start, ptr);
    assert b[..start] == buf[..start];
    buf[ptr] := '\0';
    assert buf[..start] == b[..start];
    count' := CutGroup(buf, groups, backgrounds, start, ptr, sep == '&', count, s, done);
    assert buf[..][ptr + 1..] == b[ptr + 1..] by { assert buf[..][ptr + 1..] == buf[ptr..][1..]; }
    AheadAfter(b, buf[..], s, start, ptr);
    Assoc(done, Cutting(s[start..ptr], sep == '&'), Jobs(SkipSpaces(s[ptr + 1..])));
    done' := done + Cutting(s[start..ptr], sep == '&');
    start' := SkipSpacesIn(buf, ptr + 1, s);
    assert buf[..][..start'][..ptr + 1] == buf[..ptr + 1];
    JobsStay(buf[..][..start'], ptr + 1, groups[..count'], backgrounds[..count'], done');
    NowAhead(buf[..], s, start', ptr + 1);
  }

  lemma NowAhead(b: seq<char>, s: string, start: nat, ptr: nat)
    requires |b| == 4096 && ptr <= start <= |s| < 4096 && b[|s|] == '\0'
    requires (forall i :: ptr <= i < |s| ==> b[i] == s[i] && s[i] != '\0') && (forall i :: ptr <= i < start ==> IsSpace(s[i]))
    ensures Ahead(b, s, start, ptr)
  {
  }

  // The last group, if the line does not end with a separator.
  method LastGroup(buf: array<char>, groups: array<nat>, backgrounds: array<bool>, start: nat, ptr: nat, count: nat,
                   ghost s: string, ghost done: seq<Job>)
    returns (count': nat)
    requires buf.Length == 4096 && Ahead(buf[..], s, start, ptr) && start <= ptr == |s| && buf[ptr] == '\0' && NulFree(s)
    requires |Jobs(s)| <= groups.Length == backgrounds.Length
    requires count == |done| <= groups.Length && Recorded(buf[..], groups[..count], backgrounds[..count], s, start, done)
    modifies buf, groups, backgrounds
    ensures count' == |Jobs(s)| <= groups.Length && JobsAt(buf[..], groups[..count'], backgrounds[..count'], Jobs(s))
  {
    hide StringAt;
    hide JobsAt;
    hide NulFree;
    hide Jobs;
    hide Ahead;
    hide SkipSpaces;
    InBuffer(buf[..], s, start, ptr);
    AheadPiece(buf[..], s, start, ptr);
    JobFrom(s, start, ptr);
    assert buf[..][..start] == buf[..start];
    count' := count;
    if start < ptr {
      count' := CutGroup(buf, groups, backgrounds, start, ptr, false, count, s, done);
      assert buf[..][..ptr + 1] == buf[..ptr + 1];
      JobsStay(buf[..], ptr + 1, groups[..count'], backgrounds[..count'], Jobs(s));
    } else {
      assert s[start..ptr] == "" && Cutting("", false) == [];
      assert done + [] == done;
      JobsStay(buf[..], start, groups[..count], backgrounds[..count], Jobs(s));
    }
  }

  // Trimming and recording the group from start to ptr.
  method CutGroup(buf: array<char>, groups: array<nat>, backgrounds: array<bool>, start: nat, ptr: nat, background: bool, count: nat,
                  ghost s: string, ghost done: seq<Job>)
    returns (count': nat)
    requires start <= ptr <= |s| < buf.Length && buf[ptr] == '\0' && NulFree(s) && forall i :: start <= i < ptr ==> buf[i] == s[i]
    requires count + |Cutting(s[start..ptr], background)| <= groups.Length == backgrounds.Length
    requires count == |done| && JobsAt(buf[..start], groups[..count], backgrounds[..count], done)
    modifies buf, groups, backgrounds
    ensures buf[ptr..] == old(buf[ptr..])
    ensures count' == count + |Cutting(s[start..ptr], background)| <= groups.Length
    ensures JobsAt(buf[..ptr + 1], groups[..count'], backgrounds[..count'], done + Cutting(s[start..ptr], background))
  {
    hide StringAt;
    hide JobsAt;
    hide NulFree;
    ghost var t := s[start..ptr];
    ghost var low := buf[..start];
    PieceNulFree(s, start, ptr);
    TrimInPlace(buf, start, ptr, t);
    TrimmedIsEmpty(buf[..ptr + 1], start, t);
    assert buf[..ptr + 1][..start] == low;
    count' := count;
    if start < ptr && buf[start] != '\0' {
      groups[count] := start;
      backgrounds[count] := background;
      assert groups[..count + 1] == groups[..count] + [start] && backgrounds[..count + 1] == backgrounds[..count] + [background];
      JobsPush(buf[..ptr + 1], start, groups[..count], backgrounds[..count], done, start, Job(TrimEnd(t), background));
      count' := count + 1;
    } else {
      assert TrimEnd(t) == "";
      assert done + [] == done;
      JobsStay(buf[..ptr + 1], start, groups[..count], backgrounds[..count], done);
    }
  }

  lemma PieceNulFree(s: string, i: nat, j: nat)
    requires i <= j <= |s| && NulFree(s)
    ensures NulFree(s[i..j])
  {
    assert forall k :: 0 <= k < |s[i..j]| ==> s[i..j][k] in s;
  }

  // ---- one command -------------------------------------------------------------------------

  // The word at the cursor.
  method ReadWord(s: string, p: nat) returns (end: nat)
    requires p <= |s|
    ensures p <= end <= |s| && end == p + WordLen(s[p..])
  {
    end := p;
    while end < |s| && !IsSpace(s[end]) && s[end] != '>' && s[end] != '<'
      invariant p <= end <= |s| && WordLen(s[p..]) == end - p + WordLen(s[end..])
    {
      assert s[end..][1..] == s[end + 1..];
      end := end + 1;
    }
  }

  method SkipSpacesAt(s: string, p: nat) returns (q: nat)
    requires p <= |s|
    ensures p <= q <= |s| && s[q..] == SkipSpaces(s[p..])
  {
    q := p;
    while q < |s| && IsSpace(s[q])
      invariant p <= q <= |s| && SkipSpaces(s[q..]) == SkipSpaces(s[p..])
    {
      assert s[q..][1..] == s[q + 1..];
      q := q + 1;
    }
  }

  lemma {:induction false} GatherSkips(s: string, cmd: Command)
    ensures Gather(SkipSpaces(s), cmd) == Gather(s, cmd)
  {
    if s != "" && IsSpace(s[0]) { GatherSkips(s[1..], cmd); }
  }

  lemma {:induction false} ArgsGrow(s: string, cmd: Command)
    ensures |cmd.args| <= |Gather(s, cmd).args|
    decreases |s|
  {
    if s == "" {
    } else if IsSpace(s[0]) {
      ArgsGrow(s[1..], cmd);
    } else if s[0] == '<' {
      var r := SkipSpaces(s[1..]);
      ArgsGrow(r[WordLen(r)..], if WordLen(r) > 0 then cmd.(input := Some(r[..WordLen(r)])) else cmd);
    } else if s[0] == '>' {
      var twice := |s| > 1 && s[1] == '>';
      var r := SkipSpaces(if twice then s[2..] else s[1..]);
      var n := WordLen(r);
      ArgsGrow(r[n..], cmd.(append := cmd.append || twice, output := if n > 0 then Some(r[..n]) else cmd.output));
    } else {
      var n := 1 + WordLen(s[1..]);
      ArgsGrow(s[n..], cmd.(args := cmd.args + [s[..n]]));
    }
  }

  // The three kinds of turn of parse_command's loop, with the cursor at p.
  lemma InputTurn(s: string, p: nat, q: nat, end: nat, cmd: Command)
    requires p < |s| && s[p] == '<' && p + 1 <= q <= end <= |s| && s[q..] == SkipSpaces(s[p + 1..]) && end == q + WordLen(s[q..])
    ensures Gather(s[p..], cmd) == Gather(s[end..], if end > q then cmd.(input := Some(s[q..end])) else cmd)
  {
    assert s[p..][1..] == s[p + 1..] && s[q..][end - q..] == s[end..] && s[q..][..end - q] == s[q..end];
  }

  lemma OutputTurn(s: string, p: nat, q: nat, end: nat, twice: bool, cmd: Command)
    requires p < |s| && s[p] == '>' && twice == (p + 1 < |s| && s[p + 1] == '>')
    requires p + 1 <= q <= end <= |s| && s[q..] == SkipSpaces(s[if twice then p + 2 else p + 1..]) && end == q + WordLen(s[q..])
    ensures Gather(s[p..], cmd)
            == Gather(s[end..], cmd.(append := cmd.append || twice, output := if end > q then Some(s[q..end]) else cmd.output))
  {
    var u := s[p..];
    assert u[1..] == s[p + 1..] && s[q..][end - q..] == s[end..] && s[q..][..end - q] == s[q..end];
    if twice { assert u[2..] == s[p + 2..]; }
  }

  lemma WordTurn(s: string, p: nat, end: nat, cmd: Command)
    requires p < |s| && !IsSpace(s[p]) && s[p] != '<' && s[p] != '>' && end == p + WordLen(s[p..]) && end <= |s|
    ensures p < end && Gather(s[p..], cmd) == Gather(s[end..], cmd.(args := cmd.args + [s[p..end]]))
  {
    var u := s[p..];
    assert u[1..] == s[p + 1..] && u[end - p..] == s[end..] && u[..end - p] == s[p..end];
  }

  /** parse_command: the arguments and redirections of one command. */
  method ParseCommand(input: string) returns (cmd: Command)
    requires |Parsed(input).args| < MAX_ARGS
    ensures cmd == Parsed(input)
  {
    hide Gather;
    hide WordLen;
    hide SkipSpaces;
    var s := if |input| <= 4095 then input else input[..4095];
    var args, inFile, outFile, append := new string[MAX_ARGS](_ => ""), None, None, false;
    var argCount, ptr := 0, 0;
    assert args[..0] == [] && s[0..] == s;
    while ptr < |s|
      invariant ptr <= |s| && argCount < MAX_ARGS == args.Length
      invariant Gather(s[ptr..], Command(args[..argCount], inFile, outFile, append)) == Parsed(input)
    {
      ghost var now := Command(args[..argCount], inFile, outFile, append);
      GatherSkips(s[ptr..], now);
      ptr := SkipSpacesAt(s, ptr);
      if ptr == |s| {
        break;
      }
      Behind(s, ptr);
      if s[ptr] == '<' {
        var start := SkipSpacesAt(s, ptr + 1);
        var end := ReadWord(s, start);
        InputTurn(s, ptr, start, end, now);
        if end > start {
          inFile := Some(s[start..end]);
        }
        ptr := end;
      } else if s[ptr] == '>' {
        var twice := ptr + 1 < |s| && s[ptr + 1] == '>';
        if twice {
          append := true;
        }
        var start := SkipSpacesAt(s, if twice then ptr + 2 else ptr + 1);
        var end := ReadWord(s, start);
        OutputTurn(s, ptr, start, end, twice, now);
        if end > start {
          outFile := Some(s[start..end]);
        }
        ptr := end;
      } else {
        var end := ReadWord(s, ptr);
        WordTurn(s, ptr, end, now);
        ArgsGrow(s[end..], now.(args := now.args + [s[ptr..end]]));
        args[argCount] := s[ptr..end];
        assert args[..argCount + 1] == now.args + [s[ptr..end]];
        argCount := argCount + 1;
        ptr := end;
      }
    }
    cmd := Command(args[..argCount], inFile, outFile, append);
    Finished(s, ptr, cmd);
  }

  // The cursor stands in front of a word or a redirection.
  lemma Behind(s: string, p: nat)
    requires p < |s| && (exists t :: s[p..] == SkipSpaces(t))
    ensures !IsSpace(s[p])
  {
    assert s[p..][0] == s[p];
  }

  lemma Finished(s: string, p: nat, cmd: Command)
    requires p == |s|
    ensures Gather(s[p..], cmd) == cmd
  {
  }

  // ---- the whole line ----------------------------------------------------------------------

  // The arrays are large enough.
  ghost predicate PipelineFits(text: string) {
    |Pieces(Cut(text))| <= MAX_PIPES && forall i :: 0 <= i < |Stages(text)| ==> |Stages(text)[i].args| < MAX_ARGS
  }

  ghost predicate LineFits(line: string) {
    |Jobs(Cut(line))| <= MAX_GROUPS && forall i :: 0 <= i < |Jobs(Cut(line))| ==> PipelineFits(Jobs(Cut(line))[i].text)
  }

  lemma {:induction false} AllParsedAt(ts: seq<string>, i: nat)
    requires i < |ts|
    ensures |AllParsed(ts)| == |ts| && AllParsed(ts)[i] == Parsed(ts[i]) && AllParsed(ts[..i + 1]) == AllParsed(ts[..i]) + [Parsed(ts[i])]
  {
    hide Parsed;
    if i > 0 {
      AllParsedAt(ts[1..], i - 1);
      assert ts[..i + 1][1..] == ts[1..][..i] && ts[..i][1..] == ts[1..][..i - 1];
    } else {
      assert ts[..1][1..] == [] && ts[..0] == [];
      if |ts| > 1 { AllParsedAt(ts[1..], 0); }
    }
  }

  /** execute_pipeline: each stage's command, in order. */
  method ExecutePipeline(input: string) returns (stages: seq<Command>)
    requires NulFree(input) && PipelineFits(input)
    ensures stages == Stages(input)
  {
    hide NulFree;
    hide StringAt;
    hide Parsed;
    hide Pieces;
    hide AllParsed;
    var buf := CopyIn(input);
    CutNulFree(input);
    ghost var s := Cut(input);
    CopiedIn(buf[..], s);
    var commands := new nat[MAX_PIPES](_ => 0);
    var count := SplitPipes(buf, commands, s);
    ghost var texts := Pieces(s);
    stages := [];
    var i := 0;
    assert AllParsed(texts[..0]) == [] by { NoneParsed(texts); }
    while i < count
      invariant i <= count == |texts| && stages == AllParsed(texts[..i]) && StringsAt(buf[..], commands[..count], texts)
    {
      AllParsedAt(texts, i);
      assert |Stages(input)[i].args| < MAX_ARGS;
      assert commands[..count][i] == commands[i];
      var text := ReadString(buf, commands[i], texts[i]);
      var cmd := ParseCommand(text);
      stages := stages + [cmd];
      i := i + 1;
    }
    assert texts[..count] == texts;
  }

  lemma NoneParsed(texts: seq<string>)
    ensures AllParsed(texts[..0]) == []
  {
  }

  lemma CutNulFree(s: string)
    requires NulFree(s)
    ensures NulFree(Cut(s))
  {
    if |s| > 4095 { PieceNulFree(s, 0, 4095); }
  }

  lemma CopiedIn(b: seq<char>, s: string)
    requires |s| < |b| && b[..|s|] == s && b[|s|] == '\0' && NulFree(s)
    ensures StringAt(b, 0, s)
  {
    assert b[0..0 + |s|] == b[..|s|];
  }

  lemma {:induction false} LaunchesAt(js: seq<Job>, i: nat)
    requires i < |js|
    ensures Launches(js[..i + 1]) == Launches(js[..i]) + [Launch(Stages(js[i].text), js[i].background)]
  {
    hide Stages;
    if i > 0 {
      LaunchesAt(js[1..], i - 1);
      assert js[..i + 1][1..] == js[1..][..i] && js[..i][1..] == js[1..][..i - 1];
    } else {
      assert js[..1][1..] == [] && js[..0] == [];
    }
  }

  lemma NothingLaunched(js: seq<Job>)
    ensures Launches(js[..0]) == []
  {
  }

  /** execute_full_command launches, for a line that the validator accepts, what the line's
      derivation means. */
  method ExecuteFullCommand(line: string) returns (launched: seq<Launch>)
    requires NulFree(line) && LineFits(line)
    ensures launched == Execution(line)
    ensures forall c :: |line| <= 4095 && ShellTokens(c) == Tokens(line) ==> launched == Meaning(c)
  {
    hide NulFree;
    hide StringAt;
    hide Jobs;
    hide Stages;
    hide Launches;
    hide PipelineFits;
    hide Tokens;
    hide Meaning;
    hide ShellTokens;
    var buf := CopyIn(line);
    CutNulFree(line);
    ghost var s := Cut(line);
    CopiedIn(buf[..], s);
    var groups := new nat[MAX_GROUPS](_ => 0);
    var backgrounds := new bool[MAX_GROUPS](_ => false);
    var count := SplitGroups(buf, groups, backgrounds, s);
    ghost var js := Jobs(s);
    launched := [];
    NothingLaunched(js);
    var i := 0;
    while i < count
      invariant i <= count == |js| && launched == Launches(js[..i])
      invariant JobsAt(buf[..], groups[..count], backgrounds[..count], js)
    {
      LaunchesAt(js, i);
      assert groups[..count][i] == groups[i] && backgrounds[..count][i] == backgrounds[i];
      TextIsString(buf[..], groups[i], js[i].text);
      var text := ReadString(buf, groups[i], js[i].text);
      var stages := ExecutePipeline(text);
      launched := launched + [Launch(stages, backgrounds[i])];
      i := i + 1;
    }
    assert js[..count] == js;
    forall c | |line| <= 4095 && ShellTokens(c) == Tokens(line) ensures launched == Meaning(c) { ExecutorAgrees(line, c); }
  }

  lemma TextIsString(b: seq<char>, p: nat, t: string)
    requires StringAt(b, p, t)
    ensures NulFree(t)
  {
  }
}
