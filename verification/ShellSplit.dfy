/** What executor.c makes of a line by cutting it up, and that for every line the validator accepts
    it is the meaning of the line's derivation. */
module ShellSplit {
  import opened Options
  import opened ShellGrammar

  // ParsedCommand.
  datatype Command = Command(args: seq<string>, input: Option<string>, output: Option<string>, append: bool)

  const Blank: Command := Command([], None, None, false)

  // One call of execute_pipeline.
  datatype Launch = Launch(stages: seq<Command>, background: bool)

  // A command group as execute_full_command cuts it out.
  datatype Job = Job(text: string, background: bool)

  // ---- cutting -----------------------------------------------------------------------------

  // strncpy into a buffer of 4096 characters.
  ghost function Cut(s: string): string { if |s| <= 4095 then s else s[..4095] }

  ghost function SkipSpaces(s: string): (t: string)
    ensures |t| <= |s| && (t != "" ==> !IsSpace(t[0]))
  {
    if s != "" && IsSpace(s[0]) then SkipSpaces(s[1..]) else s
  }

  ghost function TrimEnd(s: string): (t: string)
    ensures t <= s && (t != "" ==> !IsSpace(t[|t| - 1]))
  {
    if s != "" && IsSpace(s[|s| - 1]) then TrimEnd(s[..|s| - 1]) else s
  }

  // The first place of one of the characters of ops, or the length.
  ghost function Find(s: string, ops: string): (k: nat)
    ensures k <= |s| && (k < |s| ==> s[k] in ops) && forall i :: 0 <= i < k ==> s[i] !in ops
  {
    if s == "" || s[0] in ops then 0 else 1 + Find(s[1..], ops)
  }

  ghost function Cutting(text: string, background: bool): seq<Job> {
    if TrimEnd(text) == "" then [] else [Job(TrimEnd(text), background)]
  }

  // execute_full_command's loop, from the start of a group.
  ghost function Jobs(s: string): seq<Job>
    decreases |s|
  {
    var k := Find(s, ";&");
    if k == |s| then Cutting(s, false)
    else Cutting(s[..k], s[k] == '&') + Jobs(SkipSpaces(s[k + 1..]))
  }

  // execute_pipeline's loop, from the start of a command.
  ghost function Pieces(s: string): (r: seq<string>)
    ensures |r| > 0
    decreases |s|
  {
    var k := Find(s, "|");
    if k == |s| then [s] else [s[..k]] + Pieces(s[k + 1..])
  }

  // The length of what parse_command takes as one word.
  ghost function WordLen(s: string): (n: nat)
    ensures n <= |s| && (n < |s| ==> IsSpace(s[n]) || s[n] == '<' || s[n] == '>')
  {
    if s == "" || IsSpace(s[0]) || s[0] == '<' || s[0] == '>' then 0 else 1 + WordLen(s[1..])
  }

  // parse_command's loop from the cursor on, with what it has gathered.
  ghost function Gather(s: string, cmd: Command): Command
    decreases |s|
  {
    if s == "" then cmd
    else if IsSpace(s[0]) then Gather(s[1..], cmd)
    else if s[0] == '<' then
      var r := SkipSpaces(s[1..]);
      var n := WordLen(r);
      Gather(r[n..], if n > 0 then cmd.(input := Some(r[..n])) else cmd)
    else if s[0] == '>' then
      var twice := |s| > 1 && s[1] == '>';
      var r := SkipSpaces(if twice then s[2..] else s[1..]);
      var n := WordLen(r);
      Gather(r[n..], cmd.(append := cmd.append || twice, output := if n > 0 then Some(r[..n]) else cmd.output))
    else
      var n := 1 + WordLen(s[1..]);
      Gather(s[n..], cmd.(args := cmd.args + [s[..n]]))
  }

  ghost function Parsed(s: string): Command { Gather(Cut(s), Blank) }

  ghost function AllParsed(ts: seq<string>): seq<Command> {
    if ts == [] then [] else [Parsed(ts[0])] + AllParsed(ts[1..])
  }

  ghost function Stages(text: string): seq<Command> { AllParsed(Pieces(Cut(text))) }

  ghost function Launches(js: seq<Job>): seq<Launch> {
    if js == [] then [] else [Launch(Stages(js[0].text), js[0].background)] + Launches(js[1..])
  }

  // What execute_full_command launches for a line.
  ghost function Execution(line: string): seq<Launch> { Launches(Jobs(Cut(line))) }

  // ---- meaning -----------------------------------------------------------------------------

  // Redirections as the code folds them: the last file wins, and append stays set.
  ghost function Added(p: Part, cmd: Command): Command {
    match p
    case Arg(t) => cmd.(args := cmd.args + [t])
    case From(t) => cmd.(input := Some(t))
    case To(t, append) => cmd.(output := Some(t), append := cmd.append || append)
  }

  ghost function PartsMeaning(ps: seq<Part>, cmd: Command): Command {
    if ps == [] then cmd else PartsMeaning(ps[1..], Added(ps[0], cmd))
  }

  ghost function AtomicMeaning(a: Atomic): Command { PartsMeaning(a.parts, Blank.(args := [a.name])) }

  ghost function GroupMeaning(g: Group): seq<Command> {
    match g
    case One(a) => [AtomicMeaning(a)]
    case Piped(a, rest) => [AtomicMeaning(a)] + GroupMeaning(rest)
  }

  ghost function Meaning(c: Shell): seq<Launch> {
    match c
    case Last(g) => [Launch(GroupMeaning(g), false)]
    case Background(g) => [Launch(GroupMeaning(g), true)]
    case Then(g, amp, rest) => [Launch(GroupMeaning(g), amp)] + Meaning(rest)
  }

  // ---- tokens of a line that is cut --------------------------------------------------------

  // Characters at which a line can be cut without cutting a token.
  ghost predicate IsBreak(c: char) { IsSpace(c) || c == '|' || c == ';' || c == '&' }

  ghost function Mark(c: char): seq<Token>
    requires IsBreak(c)
  {
    if c == '|' then [Pipe] else if c == ';' then [Semi] else if c == '&' then [Amp] else []
  }

  // The first token of a string with the blanks before it counted one by one, and its length.
  ghost function HeadLen(s: string): (n: nat)
    requires s != ""
    ensures 0 < n <= |s|
  {
    if IsSpace(s[0]) || s[0] == '|' || s[0] == ';' || s[0] == '&' || s[0] == '<' then 1
    else if s[0] == '>' then (if |s| > 1 && s[1] == '>' then 2 else 1)
    else 1 + NameLen(s[1..])
  }

  ghost function Head(s: string): seq<Token>
    requires s != ""
  {
    if IsBreak(s[0]) then Mark(s[0])
    else if s[0] == '<' then [In]
    else if s[0] == '>' then [if |s| > 1 && s[1] == '>' then Append else Out]
    else [Name(s[..HeadLen(s)])]
  }

  lemma HeadFirst(s: string)
    requires s != ""
    ensures Tokens(s) == Head(s) + Tokens(s[HeadLen(s)..])
  {
  }

  lemma {:induction false} NameLenLocal(s: string, k: nat)
    requires k < |s| && !IsNameChar(s[k])
    ensures NameLen(s) <= k && NameLen(s[..k]) == NameLen(s)
  {
    if k > 0 && IsNameChar(s[0]) {
      NameLenLocal(s[1..], k - 1);
      assert s[..k][1..] == s[1..][..k - 1];
    }
  }

  // A break ends the token before it.
  lemma HeadLocal(s: string, k: nat)
    requires 0 < k < |s| && IsBreak(s[k])
    ensures HeadLen(s) <= k && HeadLen(s[..k]) == HeadLen(s) && Head(s[..k]) == Head(s)
  {
    var t := s[..k];
    assert t[0] == s[0];
    if !IsBreak(s[0]) && s[0] != '<' && s[0] != '>' {
      NameLenLocal(s[1..], k - 1);
      assert t[1..] == s[1..][..k - 1];
      assert t[..HeadLen(s)] == s[..HeadLen(s)];
    }
  }

  /** A line's tokens are those before a break, the break's own, and those after it. */
  lemma {:induction false} TokensBreak(s: string, k: nat)
    requires k < |s| && IsBreak(s[k])
    ensures Tokens(s) == Tokens(s[..k]) + (Mark(s[k]) + Tokens(s[k + 1..]))
    decreases |s|
  {
    hide Tokens;
    HeadFirst(s);
    if k == 0 {
      EmptyTokens();
      assert s[..0] == "" && [] + (Mark(s[0]) + Tokens(s[1..])) == Mark(s[0]) + Tokens(s[1..]);
    } else {
      var n := HeadLen(s);
      HeadLocal(s, k);
      HeadFirst(s[..k]);
      TokensBreak(s[n..], k - n);
      assert s[n..][..k - n] == s[..k][n..] && s[n..][k - n + 1..] == s[k + 1..];
      Assoc(Head(s), Tokens(s[..k][n..]), Mark(s[k]) + Tokens(s[k + 1..]));
    }
  }

  lemma EmptyTokens()
    ensures Tokens("") == []
  {
  }

  // An operator's token comes from its character.
  lemma {:induction false} NoMark(s: string, c: char)
    requires c == '|' || c == ';' || c == '&'
    requires c !in s
    ensures Mark(c)[0] !in Tokens(s)
    decreases |s|
  {
    if s != "" {
      hide Tokens;
      HeadFirst(s);
      NoMark(s[HeadLen(s)..], c);
      assert s[0] in s;
    } else {
      assert Tokens(s) == [];
    }
  }

  // Without names and operators there is nothing but white space.
  lemma {:induction false} BlankTokens(s: string)
    requires Tokens(s) == []
    ensures forall i :: 0 <= i < |s| ==> IsSpace(s[i])
  {
    if s != "" {
      HeadFirst(s);
      BlankTokens(s[1..]);
      forall i | 0 <= i < |s| ensures IsSpace(s[i]) {
        if i > 0 { assert s[i] == s[1..][i - 1]; }
      }
    }
  }

  lemma {:induction false} SkipTokens(s: string)
    ensures Tokens(SkipSpaces(s)) == Tokens(s)
  {
    if s != "" && IsSpace(s[0]) { SkipTokens(s[1..]); }
  }

  lemma {:induction false} TrimTokens(s: string)
    ensures Tokens(TrimEnd(s)) == Tokens(s)
  {
    hide Tokens;
    if s != "" && IsSpace(s[|s| - 1]) {
      TokensBreak(s, |s| - 1);
      EmptyTokens();
      TrimTokens(s[..|s| - 1]);
      assert s[|s|..] == "";
    }
  }

  // ---- one command -------------------------------------------------------------------------

  // No character at which the line would have been cut before.
  ghost predicate Plain(s: string) { forall c :: c in s ==> c != '|' && c != ';' && c != '&' && c != '\0' }

  lemma PlainSuffix(s: string, k: nat)
    requires Plain(s) && k <= |s|
    ensures Plain(s[k..])
  {
    forall c | c in s[k..] ensures c in s {
      var i :| 0 <= i < |s[k..]| && s[k..][i] == c;
      assert s[k + i] == c;
    }
  }

  lemma {:induction false} SkippedIn(s: string)
    ensures forall c :: c in SkipSpaces(s) ==> c in s
  {
    if s != "" && IsSpace(s[0]) {
      SkippedIn(s[1..]);
      assert s == [s[0]] + s[1..];
    }
  }

  lemma {:induction false} WordIsName(s: string)
    requires Plain(s)
    ensures WordLen(s) == NameLen(s)
  {
    if s != "" {
      assert s[0] in s;
      PlainSuffix(s, 1);
      WordIsName(s[1..]);
    }
  }

  // The file name after a redirection, behind any blanks.
  lemma FileAfter(s: string, t: string, rest: seq<Token>)
    requires Plain(s) && Tokens(s) == [Name(t)] + rest
    ensures var r := SkipSpaces(s);
            var n := WordLen(r);
            && n > 0 && r[..n] == t && Tokens(r[n..]) == rest && Plain(r[n..]) && |r[n..]| < |s|
  {
    hide Tokens;
    var r := SkipSpaces(s);
    SkipTokens(s);
    EmptyTokens();
    SkippedIn(s);
    WordIsName(r);
    HeadFirst(r);
    assert r != "" && r[0] in r;
    NameAtFront(r, t, rest);
    PlainSuffix(r, WordLen(r));
  }

  lemma NameAtFront(r: string, t: string, rest: seq<Token>)
    requires r != "" && !IsSpace(r[0]) && r[0] != '\0' && Head(r) + Tokens(r[HeadLen(r)..]) == [Name(t)] + rest
    ensures IsNameChar(r[0]) && NameLen(r) == HeadLen(r) && r[..NameLen(r)] == t && Tokens(r[NameLen(r)..]) == rest
  {
    hide Tokens;
    var u := Head(r) + Tokens(r[HeadLen(r)..]);
    assert u[0] == Name(t) && u[1..] == rest;
  }

  /** parse_command gathers the arguments and redirections of the derivation. */
  lemma {:induction false} GatherAgrees(s: string, ps: seq<Part>, cmd: Command)
    requires Plain(s) && Tokens(s) == PartsTokens(ps)
    ensures Gather(s, cmd) == PartsMeaning(ps, cmd)
    decreases |s|
  {
    hide Tokens;
    hide Plain;
    hide PartsTokens;
    if s == "" {
      EmptyTokens();
      PartsEmpty(ps);
    } else {
      PlainHead(s);
      HeadFirst(s);
      PlainSuffix(s, HeadLen(s));
      if IsSpace(s[0]) {
        GatherAgrees(s[1..], ps, cmd);
      } else {
        var p, more := FirstPart(ps, Head(s)[0], Tokens(s[HeadLen(s)..]));
        var next := Added(p, cmd);
        if s[0] == '<' || s[0] == '>' {
          FileAfter(s[HeadLen(s)..], p.text, PartsTokens(more));
          var r := SkipSpaces(s[HeadLen(s)..]);
          GatherAgrees(r[WordLen(r)..], more, next);
        } else {
          PlainSuffix(s, 1);
          WordIsName(s[1..]);
          GatherAgrees(s[HeadLen(s)..], more, next);
        }
      }
    }
  }

  lemma PlainHead(s: string)
    requires Plain(s) && s != ""
    ensures s[0] != '|' && s[0] != ';' && s[0] != '&' && s[0] != '\0'
  {
    assert s[0] in s;
  }

  lemma PartsEmpty(ps: seq<Part>)
    requires PartsTokens(ps) == []
    ensures ps == []
  {
  }

  // The part that the first token begins.
  lemma FirstPart(ps: seq<Part>, t: Token, rest: seq<Token>) returns (p: Part, more: seq<Part>)
    requires PartsTokens(ps) == [t] + rest
    ensures ps == [p] + more && forall cmd :: PartsMeaning(ps, cmd) == PartsMeaning(more, Added(p, cmd))
    ensures t.Name? ==> p == Arg(t.text) && rest == PartsTokens(more)
    ensures t.In? ==> p.From? && rest == [Name(p.text)] + PartsTokens(more)
    ensures t.Out? || t.Append? ==> p.To? && p.append == t.Append? && rest == [Name(p.text)] + PartsTokens(more)
  {
    p, more := ps[0], ps[1..];
    var u := PartTokens(p) + PartsTokens(more);
    assert u == [t] + rest;
    assert u[0] == t && u[1..] == rest;
    assert PartTokens(p)[1..] + PartsTokens(more) == u[1..];
  }

  // ---- cutting at the same tokens ----------------------------------------------------------

  // A list is split at its first separator in one way only.
  lemma SplitOnce(a: seq<Token>, x: Token, b: seq<Token>, a': seq<Token>, x': Token, b': seq<Token>, seps: set<Token>)
    requires a + ([x] + b) == a' + ([x'] + b') && x in seps && x' in seps
    requires (forall t :: t in a ==> t !in seps) && (forall t :: t in a' ==> t !in seps)
    ensures a == a' && x == x' && b == b'
  {
    var u := a + ([x] + b);
    assert u[|a|] == x && u[|a'|] == x';
    assert forall i :: 0 <= i < |a| ==> u[i] == a[i];
    assert forall i :: 0 <= i < |a'| ==> u[i] == a'[i];
    assert a == u[..|a|] && a' == u[..|a'|] && b == u[|a| + 1..] && b' == u[|a'| + 1..];
  }

  lemma {:induction false} PartsHaveNoOps(ps: seq<Part>)
    ensures Pipe !in PartsTokens(ps) && Semi !in PartsTokens(ps) && Amp !in PartsTokens(ps)
  {
    if ps != [] { PartsHaveNoOps(ps[1..]); }
  }

  lemma {:induction false} GroupHasNoSeps(g: Group)
    ensures Semi !in GroupTokens(g) && Amp !in GroupTokens(g)
  {
    PartsHaveNoOps(g.first.parts);
    if g.Piped? { GroupHasNoSeps(g.rest); }
  }

  /** execute_pipeline cuts a group into the stages of its derivation. */
  lemma {:induction false} PiecesAgree(s: string, g: Group)
    requires NulFree(s) && ';' !in s && '&' !in s && |s| <= 4095 && Tokens(s) == GroupTokens(g)
    ensures AllParsed(Pieces(s)) == GroupMeaning(g)
    decreases |s|
  {
    hide Tokens;
    hide Gather;
    var k := Find(s, "|");
    PartsHaveNoOps(g.first.parts);
    if k == |s| {
      NoMark(s, '|');
      assert Pipe !in GroupTokens(g);
      OneStage(s, g.first);
    } else {
      TokensBreak(s, k);
      assert s[k] == '|';
      assert Pipe in Tokens(s);
      NoMark(s[..k], '|');
      SplitOnce(Tokens(s[..k]), Pipe, Tokens(s[k + 1..]), AtomicTokens(g.first), Pipe, GroupTokens(g.rest), {Pipe});
      OneStage(s[..k], g.first);
      PiecesAgree(s[k + 1..], g.rest);
      assert ([s[..k]] + Pieces(s[k + 1..]))[1..] == Pieces(s[k + 1..]);
    }
  }

  lemma OneStage(s: string, a: Atomic)
    requires Plain(s) && |s| <= 4095 && Tokens(s) == AtomicTokens(a)
    ensures Parsed(s) == AtomicMeaning(a)
  {
    hide Tokens;
    hide Gather;
    var ps := [Arg(a.name)] + a.parts;
    assert ps[1..] == a.parts;
    GatherAgrees(s, ps, Blank);
    assert Blank.args + [a.name] == [a.name];
  }

  // A group that has been cut out and trimmed.
  lemma OneGroup(text: string, g: Group, background: bool)
    requires NulFree(text) && ';' !in text && '&' !in text && |text| <= 4095 && Tokens(text) == GroupTokens(g)
    ensures Launches(Cutting(text, background)) == [Launch(GroupMeaning(g), background)]
  {
    hide Tokens;
    hide Stages;
    TrimTokens(text);
    GroupNonempty(g);
    EmptyTokens();
    var t := TrimEnd(text);
    assert Cutting(text, background) == [Job(t, background)];
    PiecesAgree(t, g);
    StagesOf(t);
    assert [Job(t, background)][1..] == [];
    assert Launches([]) == [];
  }

  lemma StagesOf(t: string)
    requires |t| <= 4095
    ensures Stages(t) == AllParsed(Pieces(t))
  {
  }

  lemma {:induction false} LaunchesConcat(a: seq<Job>, b: seq<Job>)
    ensures Launches(a + b) == Launches(a) + Launches(b)
  {
    hide Stages;
    if a == [] {
      assert a + b == b;
    } else {
      LaunchesConcat(a[1..], b);
      assert (a + b)[1..] == a[1..] + b;
    }
  }

  // A blank rest is no group.
  lemma BlankJobs(s: string)
    requires Tokens(s) == []
    ensures Jobs(s) == []
  {
    hide Tokens;
    BlankTokens(s);
    var k := Find(s, ";&");
    assert TrimEnd(s) == "";
  }

  lemma {:induction false} JobsAgree(s: string, c: Shell)
    requires NulFree(s) && |s| <= 4095 && Tokens(s) == ShellTokens(c)
    ensures Launches(Jobs(s)) == Meaning(c)
    decreases |s|
  {
    hide Tokens;
    hide Launches;
    hide GroupTokens;
    var k := Find(s, ";&");
    GroupHasNoSeps(c.group);
    if k == |s| {
      NoMark(s, ';');
      NoMark(s, '&');
      assert Semi !in ShellTokens(c) && Amp !in ShellTokens(c);
      assert c.Last?;
      OneGroup(s, c.group, false);
    } else {
      var rest := SkipSpaces(s[k + 1..]);
      CutAtSeparator(s, c, k);
      OneGroup(s[..k], c.group, s[k] == '&');
      LaunchesConcat(Cutting(s[..k], s[k] == '&'), Jobs(rest));
      SkipTokens(s[k + 1..]);
      SkippedIn(s[k + 1..]);
      assert s == s[..k + 1] + s[k + 1..];
      if c.Then? {
        JobsAgree(rest, c.rest);
      } else {
        BlankJobs(rest);
        assert Launches([]) == [] by { NoLaunches(); }
      }
    }
  }

  lemma NoLaunches()
    ensures Launches([]) == []
  {
  }

  // The first separator of the line is the first separator of the derivation.
  lemma CutAtSeparator(s: string, c: Shell, k: nat)
    requires NulFree(s) && k == Find(s, ";&") < |s| && Tokens(s) == ShellTokens(c)
    ensures ';' !in s[..k] && '&' !in s[..k] && !c.Last? && Tokens(s[..k]) == GroupTokens(c.group)
    ensures c.Then? ==> c.amp == (s[k] == '&') && Tokens(s[k + 1..]) == ShellTokens(c.rest)
    ensures c.Background? ==> s[k] == '&' && Tokens(s[k + 1..]) == []
  {
    hide Tokens;
    hide GroupTokens;
    TokensBreak(s, k);
    GroupHasNoSeps(c.group);
    NoMark(s[..k], ';');
    NoMark(s[..k], '&');
    var x := Mark(s[k])[0];
    assert x in Tokens(s);
    assert !c.Last?;
    var y := if c.Background? || c.amp then Amp else Semi;
    var more := if c.Background? then [] else ShellTokens(c.rest);
    assert ShellTokens(c) == GroupTokens(c.group) + ([y] + more);
    SplitOnce(Tokens(s[..k]), x, Tokens(s[k + 1..]), GroupTokens(c.group), y, more, {Semi, Amp});
  }

  /** The two parsers agree: for a line that fits the buffer and that the grammar derives, the
      executor recovers the groups, background flags, stages, arguments and redirections of the
      derivation. */
  lemma ExecutorAgrees(line: string, c: Shell)
    requires NulFree(line) && |line| <= 4095 && ShellTokens(c) == Tokens(line)
    ensures Execution(line) == Meaning(c)
  {
    hide Tokens;
    JobsAgree(line, c);
  }

  /** A blank line launches nothing. */
  lemma BlankRunsNothing(line: string)
    requires |line| <= 4095 && Tokens(line) == []
    ensures Execution(line) == []
  {
    BlankJobs(line);
  }

  // ---- the append flag ---------------------------------------------------------------------

  // Whether the last output redirection is `>>`.
  ghost predicate LastAppends(ps: seq<Part>) {
    ps != [] && (if ps[|ps| - 1].To? then ps[|ps| - 1].append else LastAppends(ps[..|ps| - 1]))
  }

  ghost predicate Appends(ps: seq<Part>) { exists i :: 0 <= i < |ps| && ps[i].To? && ps[i].append }

  lemma {:induction false} AppendIsSticky(ps: seq<Part>, cmd: Command)
    ensures PartsMeaning(ps, cmd).append <==> cmd.append || Appends(ps)
  {
    if ps != [] {
      AppendIsSticky(ps[1..], Added(ps[0], cmd));
      assert forall i :: 1 <= i < |ps| ==> ps[i] == ps[1..][i - 1];
    }
  }

  /** The file that wins is opened for appending as its own operator asks, except exactly when it
      is a `>` and some `>>` stands before it. */
  lemma AppendMeetsLastOperator(a: Atomic)
    ensures (AtomicMeaning(a).append <==> LastAppends(a.parts)) <==> (Appends(a.parts) ==> LastAppends(a.parts))
  {
    AppendIsSticky(a.parts, Blank.(args := [a.name]));
    LastIsOne(a.parts);
  }

  /** `cat >> a > b` asks for b to be truncated, and the executor opens it for appending. */
  lemma AppendOutlives()
    ensures var a := Atomic("cat", [To("a", true), To("b", false)]);
            AtomicMeaning(a) == Command(["cat"], None, Some("b"), true) && !LastAppends(a.parts)
  {
    var ps := [To("a", true), To("b", false)];
    assert ps[1..] == [To("b", false)] && ps[1..][1..] == [];
    var c := Added(ps[0], Blank.(args := ["cat"]));
    assert PartsMeaning(ps, Blank.(args := ["cat"])) == PartsMeaning(ps[1..], c) == PartsMeaning([], Added(ps[1], c));
  }

  lemma {:induction false} LastIsOne(ps: seq<Part>)
    ensures LastAppends(ps) ==> Appends(ps)
  {
    if ps != [] {
      LastIsOne(ps[..|ps| - 1]);
      if ps[|ps| - 1].To? && ps[|ps| - 1].append { assert Appends(ps); }
    }
  }
}
