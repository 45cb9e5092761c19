/** The validator of parser.c, with its cursor into the line, against the grammar. */
module ShellParser {
  import opened Options
  import opened ShellGrammar

  // *str, at the end of the line too.
  function At(line: string, i: nat): char
    requires i <= |line|
  {
    if i < |line| then line[i] else '\0'
  }

  ghost function TokensAt(line: string, i: nat): seq<Token>
    requires i <= |line|
  {
    Tokens(line[i..])
  }

  // Not in front of white space.
  ghost predicate AtToken(line: string, i: nat) { i <= |line| && (i < |line| ==> !IsSpace(line[i])) }

  // ---- tokens at a cursor ------------------------------------------------------------------

  lemma SpaceSkips(line: string, i: nat)
    requires i < |line| && IsSpace(line[i])
    ensures TokensAt(line, i) == TokensAt(line, i + 1)
  {
    assert line[i..][1..] == line[i + 1..];
  }

  lemma {:induction false} NameLenFrom(line: string, i: nat, j: nat)
    requires i <= j <= |line| && (forall k :: i <= k < j ==> IsNameChar(line[k])) && (j < |line| ==> !IsNameChar(line[j]))
    ensures NameLen(line[i..]) == j - i
    decreases j - i
  {
    if i < j {
      NameLenFrom(line, i + 1, j);
      assert line[i..][1..] == line[i + 1..];
    }
  }

  lemma NameAt(line: string, i: nat, j: nat)
    requires i < j <= |line| && (forall k :: i <= k < j ==> IsNameChar(line[k])) && (j < |line| ==> !IsNameChar(line[j]))
    ensures TokensAt(line, i) == [Name(line[i..j])] + TokensAt(line, j)
  {
    var s := line[i..];
    NameLenFrom(line, i + 1, j);
    assert s[1..] == line[i + 1..] && s[..j - i] == line[i..j] && s[j - i..] == line[j..];
    assert IsNameChar(line[i]);
  }

  // Where no name starts there is an operator, or the end.
  lemma OperatorAt(line: string, i: nat)
    requires NulFree(line) && AtToken(line, i) && !IsNameChar(At(line, i))
    ensures i == |line| ==> TokensAt(line, i) == []
    ensures i < |line| ==> IsSpecial(line[i]) && TokensAt(line, i) != [] && !TokensAt(line, i)[0].Name?
    ensures i < |line| ==> match line[i]
                           case '|' => TokensAt(line, i) == [Pipe] + TokensAt(line, i + 1)
                           case ';' => TokensAt(line, i) == [Semi] + TokensAt(line, i + 1)
                           case '&' => TokensAt(line, i) == [Amp] + TokensAt(line, i + 1)
                           case '<' => TokensAt(line, i) == [In] + TokensAt(line, i + 1)
                           case _ => if At(line, i + 1) == '>' then TokensAt(line, i) == [Append] + TokensAt(line, i + 2)
                                     else TokensAt(line, i) == [Out] + TokensAt(line, i + 1)
  {
    if i < |line| {
      var s := line[i..];
      assert s[1..] == line[i + 1..];
      if i + 1 < |line| { assert s[2..] == line[i + 2..]; }
    }
  }

  lemma NameStarts(line: string, i: nat)
    requires i < |line| && IsNameChar(line[i])
    ensures TokensAt(line, i) != [] && TokensAt(line, i)[0].Name?
  {
  }

  // ---- the pieces --------------------------------------------------------------------------

  method SkipWhitespace(line: string, i: nat) returns (j: nat)
    requires i <= |line|
    ensures i <= j && AtToken(line, j) && TokensAt(line, j) == TokensAt(line, i)
  {
    hide Tokens;
    j := i;
    while j < |line| && IsSpace(line[j])
      invariant i <= j <= |line| && TokensAt(line, j) == TokensAt(line, i)
    {
      SpaceSkips(line, j);
      j := j + 1;
    }
  }

  /** parse_name: reads a name token if one is next. */
  method ParseName(line: string, i: nat) returns (next: Option<nat>, name: string)
    requires NulFree(line) && AtToken(line, i)
    ensures var ts := TokensAt(line, i);
            && (next.Some? <==> ts != [] && ts[0].Name?)
            && (next.Some? ==> i < next.value <= |line| && ts == [Name(name)] + TokensAt(line, next.value))
  {
    hide TokensAt;
    var end := i;
    while IsNameChar(At(line, end))
      invariant i <= end <= |line| && forall k :: i <= k < end ==> IsNameChar(line[k])
      decreases |line| - end
    {
      end := end + 1;
    }
    if end == i {
      OperatorAt(line, i);
      return None, "";
    }
    NameAt(line, i, end);
    return Some(end), line[i..end];
  }

  /** parse_input_redir: reads `<` and a name if they are next. */
  method ParseInputRedir(line: string, i: nat) returns (next: Option<nat>, file: string)
    requires NulFree(line) && AtToken(line, i)
    ensures var ts := TokensAt(line, i);
            && (next.Some? <==> |ts| > 1 && ts[0].In? && ts[1].Name?)
            && (next.Some? ==> i < next.value <= |line| && ts == [In, Name(file)] + TokensAt(line, next.value))
  {
    hide TokensAt;
    if At(line, i) != '<' {
      NotThis(line, i);
      return None, "";
    }
    OperatorAt(line, i);
    var j := SkipWhitespace(line, i + 1);
    next, file := ParseName(line, j);
  }

  lemma NotThis(line: string, i: nat)
    requires NulFree(line) && AtToken(line, i)
    ensures TokensAt(line, i) != [] ==> (TokensAt(line, i)[0].In? <==> At(line, i) == '<')
    ensures TokensAt(line, i) != [] ==> (TokensAt(line, i)[0].Out? || TokensAt(line, i)[0].Append? <==> At(line, i) == '>')
  {
    if IsNameChar(At(line, i)) { NameStarts(line, i); } else { OperatorAt(line, i); }
  }

  /** parse_output_redir: reads `>` or `>>` and a name if they are next. */
  method ParseOutputRedir(line: string, i: nat) returns (next: Option<nat>, file: string, append: bool)
    requires NulFree(line) && AtToken(line, i)
    ensures var ts := TokensAt(line, i);
            && (next.Some? <==> |ts| > 1 && (ts[0].Out? || ts[0].Append?) && ts[1].Name?)
            && (next.Some? ==> && i < next.value <= |line| && append == ts[0].Append?
                               && ts == [ts[0], Name(file)] + TokensAt(line, next.value))
  {
    hide TokensAt;
    append := false;
    if At(line, i) != '>' {
      NotThis(line, i);
      return None, "", append;
    }
    OperatorAt(line, i);
    var j := i + 1;
    if At(line, j) == '>' {
      append := true;
      j := j + 1;
    } else {
      append := false;
    }
    j := SkipWhitespace(line, j);
    next, file := ParseName(line, j);
  }

  // ---- atomic commands and groups ----------------------------------------------------------

  ghost function Rest<T>(r: Option<Reading<T>>): Option<seq<Token>> { if r.None? then None else Some(r.value.rest) }

  // The tokens behind the cursor, if there is one.
  ghost function Behind(line: string, next: Option<nat>): Option<seq<Token>>
    requires next.Some? ==> next.value <= |line|
  {
    if next.None? then None else Some(TokensAt(line, next.value))
  }

  lemma StopsAt(line: string, i: nat)
    requires NulFree(line) && AtToken(line, i)
    ensures Stops(TokensAt(line, i)) <==> i == |line| || line[i] == '|' || line[i] == '&' || line[i] == ';'
    ensures TokensAt(line, i) == [] <==> i == |line|
    ensures i < |line| ==> (line[i] == '|' <==> TokensAt(line, i)[0].Pipe?) && (line[i] == '&' <==> TokensAt(line, i)[0].Amp?)
  {
    if IsNameChar(At(line, i)) { NameStarts(line, i); } else { OperatorAt(line, i); }
  }

  // One argument or redirection fewer to read.
  lemma RestAfter(ts: seq<Token>, k: nat)
    requires !Stops(ts) && (if ts[0].Name? then k == 1 else k == 2 <= |ts| && ts[1].Name?)
    ensures Rest(ReadParts(ts)) == Rest(ReadParts(ts[k..]))
  {
  }

  lemma NoRest(ts: seq<Token>)
    requires !Stops(ts) && !ts[0].Name? && (|ts| < 2 || !ts[1].Name?)
    ensures Rest(ReadParts(ts)) == None
  {
  }

  lemma RestAtStop(ts: seq<Token>)
    requires Stops(ts)
    ensures Rest(ReadParts(ts)) == Some(ts)
  {
  }

  lemma RestOfAtomic(ts: seq<Token>)
    ensures Rest(ReadAtomic(ts)) == if ts == [] || !ts[0].Name? then None else Rest(ReadParts(ts[1..]))
  {
  }

  /** parse_atomic: succeeds exactly when an atomic command can be read, and stops behind it. */
  method ParseAtomic(line: string, start: nat) returns (next: Option<nat>)
    requires NulFree(line) && start <= |line|
    ensures next.Some? ==> start < next.value <= |line|
    ensures Behind(line, next) == Rest(ReadAtomic(TokensAt(line, start)))
  {
    hide TokensAt;
    hide ReadParts;
    hide ReadAtomic;
    hide Stops;
    var i := SkipWhitespace(line, start);
    RestOfAtomic(TokensAt(line, i));
    var name, file, append;
    next, name := ParseName(line, i);
    if next.None? {
      return;
    }
    i := next.value;
    ghost var goal := Rest(ReadAtomic(TokensAt(line, start)));
    while true
      invariant start < i <= |line| && Rest(ReadParts(TokensAt(line, i))) == goal
      decreases |line| - i
    {
      i := SkipWhitespace(line, i);
      StopsAt(line, i);
      ghost var ts := TokensAt(line, i);
      if At(line, i) == '\0' || At(line, i) == '|' || At(line, i) == '&' || At(line, i) == ';' {
        RestAtStop(ts);
        break;
      }
      next, file := ParseInputRedir(line, i);
      if next.Some? {
        RestAfter(ts, 2);
        i := next.value;
        continue;
      }
      next, file, append := ParseOutputRedir(line, i);
      if next.Some? {
        RestAfter(ts, 2);
        i := next.value;
        continue;
      }
      next, name := ParseName(line, i);
      if next.Some? {
        RestAfter(ts, 1);
        i := next.value;
        continue;
      }
      OneOfThree(ts);
      NoRest(ts);
      return None;
    }
    next := Some(i);
  }

  lemma OneOfThree(ts: seq<Token>)
    requires !Stops(ts)
    ensures ts != [] && (ts[0].Name? || ts[0].In? || ts[0].Out? || ts[0].Append?)
  {
  }

  // What is left of a group whose first atomic command has been read.
  ghost function GroupTail(ts: seq<Token>): Option<seq<Token>> {
    if ts == [] || !ts[0].Pipe? then Some(ts) else Rest(ReadGroup(ts[1..]))
  }

  lemma RestOfGroup(ts: seq<Token>)
    ensures Rest(ReadGroup(ts)) == if ReadAtomic(ts).None? then None else GroupTail(ReadAtomic(ts).value.rest)
  {
  }

  /** parse_cmd_group: succeeds exactly when a command group can be read, and stops behind it. */
  method ParseCmdGroup(line: string, start: nat) returns (next: Option<nat>)
    requires NulFree(line) && start <= |line|
    ensures next.Some? ==> start < next.value && AtToken(line, next.value)
    ensures Behind(line, next) == Rest(ReadGroup(TokensAt(line, start)))
  {
    hide TokensAt;
    hide ReadAtomic;
    hide ReadGroup;
    var i := SkipWhitespace(line, start);
    RestOfGroup(TokensAt(line, i));
    next := ParseAtomic(line, i);
    if next.None? {
      return;
    }
    i := next.value;
    ghost var goal := Rest(ReadGroup(TokensAt(line, start)));
    while true
      invariant start < i <= |line| && GroupTail(TokensAt(line, i)) == goal
      decreases |line| - i
    {
      i := SkipWhitespace(line, i);
      StopsAt(line, i);
      if At(line, i) != '|' {
        break;
      }
      OperatorAt(line, i);
      i := i + 1;
      i := SkipWhitespace(line, i);
      RestOfGroup(TokensAt(line, i));
      next := ParseAtomic(line, i);
      if next.None? {
        return;
      }
      i := next.value;
    }
    next := Some(i);
  }

  // ---- the line ----------------------------------------------------------------------------

  // Whether the rest of a line, behind its first group, can be read.
  ghost predicate TailReads(ts: seq<Token>) {
    ts == [] || ts == [Amp] || ((ts[0].Amp? || ts[0].Semi?) && ReadShell(ts[1..]).Some?)
  }

  lemma ReadsGroupFirst(ts: seq<Token>)
    ensures ReadShell(ts).Some? <==> ReadGroup(ts).Some? && TailReads(ReadGroup(ts).value.rest)
  {
    if ReadGroup(ts).Some? { GroupShortens(ts); }
  }

  /** parse_input accepts a line exactly when it is blank or the grammar derives its tokens. */
  method ParseInput(line: string) returns (ok: bool)
    requires NulFree(line)
    ensures ok <==> Tokens(line) == [] || Derivable(Tokens(line))
  {
    hide TokensAt;
    hide ReadGroup;
    hide ReadShell;
    hide Derivable;
    hide Tokens;
    ReadIffDerivable(Tokens(line));
    WholeLine(line);
    var i := SkipWhitespace(line, 0);
    StopsAt(line, i);
    if At(line, i) == '\0' {
      return true;
    }
    ReadsGroupFirst(TokensAt(line, i));
    var next := ParseCmdGroup(line, i);
    if next.None? {
      return false;
    }
    i := next.value;
    while true
      invariant AtToken(line, i) && (TailReads(TokensAt(line, i)) <==> Derivable(Tokens(line)))
      decreases |line| - i
    {
      i := SkipWhitespace(line, i);
      StopsAt(line, i);
      if At(line, i) == '\0' {
        break;
      }
      OperatorOnly(line, i);
      if At(line, i) == '&' {
        i := i + 1;
        i := SkipWhitespace(line, i);
        StopsAt(line, i);
        if At(line, i) == '\0' {
          break;
        }
        ReadsGroupFirst(TokensAt(line, i));
        next := ParseCmdGroup(line, i);
        if next.None? {
          return false;
        }
        i := next.value;
      } else if At(line, i) == ';' {
        i := i + 1;
        i := SkipWhitespace(line, i);
        ReadsGroupFirst(TokensAt(line, i));
        next := ParseCmdGroup(line, i);
        if next.None? {
          return false;
        }
        i := next.value;
      } else {
        return false;
      }
    }
    i := SkipWhitespace(line, i);
    ok := At(line, i) == '\0';
  }

  lemma WholeLine(line: string)
    ensures TokensAt(line, 0) == Tokens(line)
  {
    assert line[0..] == line;
  }

  // What stands behind a group: an operator that may follow it, or nothing that can be read.
  lemma OperatorOnly(line: string, i: nat)
    requires NulFree(line) && AtToken(line, i) && i < |line|
    ensures line[i] == '&' ==> && TokensAt(line, i) == [Amp] + TokensAt(line, i + 1)
                               && TailReads(TokensAt(line, i)) == (TokensAt(line, i + 1) == [] || ReadShell(TokensAt(line, i + 1)).Some?)
    ensures line[i] == ';' ==> && TokensAt(line, i) == [Semi] + TokensAt(line, i + 1)
                               && TailReads(TokensAt(line, i)) == ReadShell(TokensAt(line, i + 1)).Some?
    ensures line[i] != '&' && line[i] != ';' ==> !TailReads(TokensAt(line, i))
  {
    hide ReadShell;
    if IsNameChar(At(line, i)) { NameStarts(line, i); } else { OperatorAt(line, i); }
  }
}
