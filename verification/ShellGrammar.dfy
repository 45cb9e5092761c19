/** The shell's command language: tokens, the grammar in parser.c's comments as syntax trees, and a
    recursive-descent reading of token lists that finds the tree exactly when there is one. */
module ShellGrammar {
  import opened Options

  // ---- characters --------------------------------------------------------------------------

  // isspace in the C locale.
  predicate IsSpace(c: char) { c == ' ' || c == '\t' || c == '\n' || c == '\U{0B}' || c == '\U{0C}' || c == '\r' }

  predicate IsSpecial(c: char) { c == '|' || c == '&' || c == '>' || c == '<' || c == ';' }

  predicate IsNameChar(c: char) { c != '\0' && !IsSpace(c) && !IsSpecial(c) }

  // A C string: the terminator is not among its characters.
  ghost predicate NulFree(s: string) { '\0' !in s }

  // ---- tokens ------------------------------------------------------------------------------

  datatype Token = Name(text: string) | Pipe | Semi | Amp | In | Out | Append

  // The length of the longest prefix of name characters.
  ghost function NameLen(s: string): (n: nat)
    ensures n <= |s| && (n < |s| ==> !IsNameChar(s[n])) && forall k :: 0 <= k < n ==> IsNameChar(s[k])
  {
    if s == "" || !IsNameChar(s[0]) then 0 else 1 + NameLen(s[1..])
  }

  // Longest tokens first; white space only separates.
  ghost function Tokens(s: string): seq<Token>
    decreases |s|
  {
    if s == "" then []
    else if IsSpace(s[0]) then Tokens(s[1..])
    else if s[0] == '|' then [Pipe] + Tokens(s[1..])
    else if s[0] == ';' then [Semi] + Tokens(s[1..])
    else if s[0] == '&' then [Amp] + Tokens(s[1..])
    else if s[0] == '<' then [In] + Tokens(s[1..])
    else if s[0] == '>' then
      if |s| > 1 && s[1] == '>' then [Append] + Tokens(s[2..]) else [Out] + Tokens(s[1..])
    else
      var n := 1 + NameLen(s[1..]);
      [Name(s[..n])] + Tokens(s[n..])
  }

  // ---- syntax trees ------------------------------------------------------------------------

  // name | input | output, after the first name of an atomic command.
  datatype Part = Arg(text: string) | From(text: string) | To(text: string, append: bool)

  // atomic: name (name | input | output)*
  datatype Atomic = Atomic(name: string, parts: seq<Part>)

  // cmd_group: atomic ("|" atomic)*
  datatype Group = One(first: Atomic) | Piped(first: Atomic, rest: Group)

  // shell command: cmd_group (("&" | ";") cmd_group)* "&"?
  datatype Shell = Last(group: Group) | Background(group: Group) | Then(group: Group, amp: bool, rest: Shell)

  // The tokens that a tree derives.
  ghost function PartTokens(p: Part): seq<Token> {
    match p
    case Arg(t) => [Name(t)]
    case From(t) => [In, Name(t)]
    case To(t, append) => [if append then Append else Out, Name(t)]
  }

  ghost function PartsTokens(ps: seq<Part>): seq<Token> {
    if ps == [] then [] else PartTokens(ps[0]) + PartsTokens(ps[1..])
  }

  ghost function AtomicTokens(a: Atomic): seq<Token> { [Name(a.name)] + PartsTokens(a.parts) }

  ghost function GroupTokens(g: Group): seq<Token> {
    match g
    case One(a) => AtomicTokens(a)
    case Piped(a, rest) => AtomicTokens(a) + [Pipe] + GroupTokens(rest)
  }

  ghost function ShellTokens(c: Shell): seq<Token> {
    match c
    case Last(g) => GroupTokens(g)
    case Background(g) => GroupTokens(g) + [Amp]
    case Then(g, amp, rest) => GroupTokens(g) + [if amp then Amp else Semi] + ShellTokens(rest)
  }

  // ---- reading tokens ----------------------------------------------------------------------

  datatype Reading<T> = Reading(tree: T, rest: seq<Token>)

  // Where an atomic command ends.
  ghost predicate Stops(ts: seq<Token>) { ts == [] || ts[0].Pipe? || ts[0].Amp? || ts[0].Semi? }

  ghost function AddPart(p: Part, r: Option<Reading<seq<Part>>>): Option<Reading<seq<Part>>> {
    if r.None? then None else Some(Reading([p] + r.value.tree, r.value.rest))
  }

  ghost function ReadParts(ts: seq<Token>): Option<Reading<seq<Part>>>
    decreases |ts|
  {
    if Stops(ts) then Some(Reading([], ts))
    else if ts[0].Name? then AddPart(Arg(ts[0].text), ReadParts(ts[1..]))
    else if |ts| < 2 || !ts[1].Name? then None
    else AddPart(if ts[0].In? then From(ts[1].text) else To(ts[1].text, ts[0].Append?), ReadParts(ts[2..]))
  }

  ghost function ReadAtomic(ts: seq<Token>): Option<Reading<Atomic>> {
    if ts == [] || !ts[0].Name? then None
    else
      var r := ReadParts(ts[1..]);
      if r.None? then None else Some(Reading(Atomic(ts[0].text, r.value.tree), r.value.rest))
  }

  ghost function ReadGroup(ts: seq<Token>): Option<Reading<Group>>
    decreases |ts|
  {
    var r := ReadAtomic(ts);
    if r.None? then None
    else if r.value.rest == [] || !r.value.rest[0].Pipe? then Some(Reading(One(r.value.tree), r.value.rest))
    else
      AtomicShortens(ts);
      var more := ReadGroup(r.value.rest[1..]);
      if more.None? then None else Some(Reading(Piped(r.value.tree, more.value.tree), more.value.rest))
  }

  ghost function ReadShell(ts: seq<Token>): Option<Shell>
    decreases |ts|
  {
    var r := ReadGroup(ts);
    if r.None? then None
    else
      var g, rest := r.value.tree, r.value.rest;
      GroupShortens(ts);
      if rest == [] then Some(Last(g))
      else if rest == [Amp] then Some(Background(g))
      else if rest[0].Amp? || rest[0].Semi? then
        var more := ReadShell(rest[1..]);
        if more.None? then None else Some(Then(g, rest[0].Amp?, more.value))
      else None
  }

  // ---- what is read derives the tokens -----------------------------------------------------

  // Reading one part off the front of a token list.
  lemma ReadPart(p: Part, ts: seq<Token>)
    ensures ReadParts(PartTokens(p) + ts) == AddPart(p, ReadParts(ts))
  {
    if p.Arg? {
      assert ([Name(p.text)] + ts)[1..] == ts;
    } else {
      assert (PartTokens(p) + ts)[2..] == ts;
    }
  }

  // The part at the front of a token list, if it is read.
  lemma FrontPart(ts: seq<Token>) returns (p: Part, rest: seq<Token>)
    requires ReadParts(ts).Some? && !Stops(ts)
    ensures ts == PartTokens(p) + rest
  {
    p := if ts[0].Name? then Arg(ts[0].text) else if ts[0].In? then From(ts[1].text) else To(ts[1].text, ts[0].Append?);
    rest := ts[|PartTokens(p)|..];
  }

  lemma {:induction false} PartsSound(ts: seq<Token>)
    requires ReadParts(ts).Some?
    ensures ts == PartsTokens(ReadParts(ts).value.tree) + ReadParts(ts).value.rest && Stops(ReadParts(ts).value.rest)
    decreases |ts|
  {
    hide PartTokens;
    if Stops(ts) {
      assert ReadParts(ts).value.tree == [];
    } else {
      var p, rest := FrontPart(ts);
      ReadFront(ts, p, rest);
      PartNonempty(p);
      PartsSound(rest);
      PartsCons(p, ReadParts(rest).value.tree);
      Assoc(PartTokens(p), PartsTokens(ReadParts(rest).value.tree), ReadParts(rest).value.rest);
    }
  }

  lemma ReadFront(ts: seq<Token>, p: Part, rest: seq<Token>)
    requires ts == PartTokens(p) + rest && ReadParts(ts).Some?
    ensures ReadParts(rest).Some? && ReadParts(ts).value.tree == [p] + ReadParts(rest).value.tree
    ensures ReadParts(ts).value.rest == ReadParts(rest).value.rest
  {
    hide ReadParts;
    hide PartTokens;
    ReadPart(p, rest);
  }

  lemma PartNonempty(p: Part)
    ensures PartTokens(p) != []
  {
  }

  lemma Assoc<T>(a: seq<T>, b: seq<T>, c: seq<T>)
    ensures (a + b) + c == a + (b + c)
  {
  }

  lemma PartsCons(p: Part, ps: seq<Part>)
    ensures PartsTokens([p] + ps) == PartTokens(p) + PartsTokens(ps)
  {
    assert ([p] + ps)[1..] == ps;
  }

  lemma AtomicSound(ts: seq<Token>)
    requires ReadAtomic(ts).Some?
    ensures ts == AtomicTokens(ReadAtomic(ts).value.tree) + ReadAtomic(ts).value.rest && Stops(ReadAtomic(ts).value.rest)
  {
    hide ReadParts;
    hide PartsTokens;
    PartsSound(ts[1..]);
    Assoc([ts[0]], PartsTokens(ReadParts(ts[1..]).value.tree), ReadParts(ts[1..]).value.rest);
  }

  lemma AtomicShortens(ts: seq<Token>)
    requires ReadAtomic(ts).Some?
    ensures |ReadAtomic(ts).value.rest| < |ts|
  {
    AtomicSound(ts);
  }

  lemma {:induction false} GroupSound(ts: seq<Token>)
    requires ReadGroup(ts).Some?
    ensures ts == GroupTokens(ReadGroup(ts).value.tree) + ReadGroup(ts).value.rest
    ensures Stops(ReadGroup(ts).value.rest) && (ReadGroup(ts).value.rest != [] ==> !ReadGroup(ts).value.rest[0].Pipe?)
    decreases |ts|
  {
    hide ReadAtomic;
    hide AtomicTokens;
    AtomicSound(ts);
    var rest := ReadAtomic(ts).value.rest;
    if rest != [] && rest[0].Pipe? {
      AtomicShortens(ts);
      GroupSound(rest[1..]);
      assert rest == [Pipe] + rest[1..];
    }
  }

  lemma GroupNonempty(g: Group)
    ensures GroupTokens(g) != [] && GroupTokens(g)[0].Name?
  {
  }

  lemma GroupShortens(ts: seq<Token>)
    requires ReadGroup(ts).Some?
    ensures |ReadGroup(ts).value.rest| < |ts|
  {
    GroupSound(ts);
    GroupNonempty(ReadGroup(ts).value.tree);
  }

  lemma {:induction false} ShellSound(ts: seq<Token>)
    requires ReadShell(ts).Some?
    ensures ShellTokens(ReadShell(ts).value) == ts
    decreases |ts|
  {
    hide ReadGroup;
    hide GroupTokens;
    GroupSound(ts);
    GroupShortens(ts);
    var rest := ReadGroup(ts).value.rest;
    if rest != [] && rest != [Amp] {
      ShellSound(rest[1..]);
      assert rest == [rest[0]] + rest[1..];
    }
  }

  // ---- what derives the tokens is read -----------------------------------------------------

  lemma {:induction false} PartsComplete(ps: seq<Part>, rest: seq<Token>)
    requires Stops(rest)
    ensures ReadParts(PartsTokens(ps) + rest) == Some(Reading(ps, rest))
    decreases |ps|
  {
    hide PartTokens;
    if ps == [] {
      assert PartsTokens(ps) + rest == rest;
      assert ReadParts(rest) == Some(Reading([], rest));
    } else {
      hide ReadParts;
      PartsComplete(ps[1..], rest);
      Assoc(PartTokens(ps[0]), PartsTokens(ps[1..]), rest);
      ReadPart(ps[0], PartsTokens(ps[1..]) + rest);
      assert [ps[0]] + ps[1..] == ps;
    }
  }

  lemma AtomicComplete(a: Atomic, rest: seq<Token>)
    requires Stops(rest)
    ensures ReadAtomic(AtomicTokens(a) + rest) == Some(Reading(a, rest))
  {
    hide ReadParts;
    hide PartsTokens;
    PartsComplete(a.parts, rest);
    assert (AtomicTokens(a) + rest)[1..] == PartsTokens(a.parts) + rest;
  }

  lemma {:induction false} GroupComplete(g: Group, rest: seq<Token>)
    requires Stops(rest) && (rest != [] ==> !rest[0].Pipe?)
    ensures ReadGroup(GroupTokens(g) + rest) == Some(Reading(g, rest))
  {
    hide ReadAtomic;
    hide AtomicTokens;
    match g
    case One(a) =>
      AtomicComplete(a, rest);
    case Piped(a, more) =>
      var tail := [Pipe] + (GroupTokens(more) + rest);
      assert GroupTokens(g) + rest == AtomicTokens(a) + tail;
      AtomicComplete(a, tail);
      GroupComplete(more, rest);
      assert tail[1..] == GroupTokens(more) + rest;
  }

  /** The reading of a derived token list is the very tree that derives it: the grammar is not
      ambiguous, and the reading misses nothing. */
  lemma {:induction false} ShellComplete(c: Shell)
    ensures ReadShell(ShellTokens(c)) == Some(c)
  {
    hide ReadGroup;
    hide GroupTokens;
    match c
    case Last(g) =>
      GroupComplete(g, []);
      assert GroupTokens(g) + [] == GroupTokens(g);
    case Background(g) =>
      GroupComplete(g, [Amp]);
    case Then(g, amp, more) =>
      var tail := [if amp then Amp else Semi] + ShellTokens(more);
      assert ShellTokens(c) == GroupTokens(g) + tail;
      GroupComplete(g, tail);
      ShellComplete(more);
      ShellNonempty(more);
      assert tail[1..] == ShellTokens(more);
  }

  lemma ShellNonempty(c: Shell)
    ensures ShellTokens(c) != [] && ShellTokens(c)[0].Name?
  {
    GroupNonempty(c.group);
  }

  ghost predicate Derivable(ts: seq<Token>) { exists c :: ShellTokens(c) == ts }

  /** Token lists are read exactly when the grammar derives them. */
  lemma ReadIffDerivable(ts: seq<Token>)
    ensures ReadShell(ts).Some? <==> Derivable(ts)
  {
    if ReadShell(ts).Some? { ShellSound(ts); }
    if Derivable(ts) {
      var c :| ShellTokens(c) == ts;
      ShellComplete(c);
    }
  }
}
