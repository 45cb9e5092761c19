/** What grep.c's patterns mean, and what grep prints, independently of how it gets there. */
module Grep {

  // ---- patterns ----------------------------------------------------------------------------

  datatype Item = One(c: char) | Star(c: char)

  // The items of a pattern without its `^`, and whether it ends in `$`.
  datatype Pattern = Pattern(items: seq<Item>, atEnd: bool)

  // A star belongs to the character before it; `$` is special only at the end, `^` only in front.
  ghost function Parse(re: string): Pattern
    decreases |re|
  {
    if re == "" then Pattern([], false)
    else if |re| > 1 && re[1] == '*' then Prefixed(Star(re[0]), Parse(re[2..]))
    else if re == "$" then Pattern([], true)
    else Prefixed(One(re[0]), Parse(re[1..]))
  }

  ghost function Prefixed(i: Item, p: Pattern): Pattern { Pattern([i] + p.items, p.atEnd) }

  ghost predicate Takes(c: char, x: char) { c == '.' || c == x }

  // The piece of text that an item may stand for.
  ghost predicate Fits(i: Item, piece: string) {
    match i
    case One(c) => |piece| == 1 && Takes(c, piece[0])
    case Star(c) => forall k :: 0 <= k < |piece| ==> Takes(c, piece[k])
  }

  ghost function Concat(pieces: seq<string>): string {
    if pieces == [] then "" else pieces[0] + Concat(pieces[1..])
  }

  ghost predicate AllFit(items: seq<Item>, pieces: seq<string>) {
    |items| == |pieces| && forall i :: 0 <= i < |pieces| ==> Fits(items[i], pieces[i])
  }

  // The pieces, in order, fit the items and make up the beginning of the text.
  ghost predicate Divides(p: Pattern, pieces: seq<string>, text: string) {
    AllFit(p.items, pieces) && Concat(pieces) <= text && (p.atEnd ==> Concat(pieces) == text)
  }

  // The pattern stands for a beginning of the text.
  ghost predicate Begins(p: Pattern, text: string) { exists pieces :: Divides(p, pieces, text) }

  // A pattern with `^` must match at the beginning, any other one somewhere.
  ghost predicate Matches(re: string, text: string) {
    if re != "" && re[0] == '^' then Begins(Parse(re[1..]), text)
    else exists i :: 0 <= i <= |text| && Begins(Parse(re), text[i..])
  }

  // ---- the matcher -------------------------------------------------------------------------

  // matchhere and matchstar.
  ghost predicate Here(re: string, text: string)
    decreases |re|, |text|, 0
  {
    if re == "" then true
    else if |re| > 1 && re[1] == '*' then Run(re[0], re[2..], text)
    else if re == "$" then text == ""
    else text != "" && Takes(re[0], text[0]) && Here(re[1..], text[1..])
  }

  ghost predicate Run(c: char, re: string, text: string)
    decreases |re|, |text|, 1
  {
    Here(re, text) || (text != "" && Takes(c, text[0]) && Run(c, re, text[1..]))
  }

  lemma ConcatCons(s: string, pieces: seq<string>)
    ensures Concat([s] + pieces) == s + Concat(pieces)
  {
    assert ([s] + pieces)[1..] == pieces;
  }

  lemma AllFitCons(i: Item, items: seq<Item>, piece: string, pieces: seq<string>)
    ensures AllFit([i] + items, [piece] + pieces) <==> Fits(i, piece) && AllFit(items, pieces)
  {
    hide Fits;
    var more, all := [i] + items, [piece] + pieces;
    if AllFit(more, all) {
      assert more[0] == i && all[0] == piece;
      forall k | 0 <= k < |pieces| ensures Fits(items[k], pieces[k]) { assert Fits(more[k + 1], all[k + 1]); }
    }
    if Fits(i, piece) && AllFit(items, pieces) {
      forall k | 0 <= k < |all| ensures Fits(more[k], all[k]) { if k > 0 { assert Fits(items[k - 1], pieces[k - 1]); } }
    }
  }

  lemma PrefixCons(piece: string, tail: string, text: string)
    requires piece <= text
    ensures piece + tail <= text <==> tail <= text[|piece|..]
    ensures piece + tail == text <==> tail == text[|piece|..]
  {
    var rest := text[|piece|..];
    assert text == piece + rest;
    if piece + tail <= text { assert tail == text[..|piece + tail|][|piece|..] == rest[..|tail|]; }
    if piece + tail == text { assert tail == rest; }
  }

  lemma DividesCons(i: Item, p: Pattern, piece: string, pieces: seq<string>, text: string)
    requires piece <= text
    ensures Divides(Prefixed(i, p), [piece] + pieces, text) <==> Fits(i, piece) && Divides(p, pieces, text[|piece|..])
  {
    hide Fits;
    hide AllFit;
    ConcatCons(piece, pieces);
    AllFitCons(i, p.items, piece, pieces);
    PrefixCons(piece, Concat(pieces), text);
  }

  // A pattern with one more item in front: its piece, then the others'.
  lemma BeginsCons(i: Item, p: Pattern, text: string)
    ensures Begins(Prefixed(i, p), text) <==> exists n :: 0 <= n <= |text| && Fits(i, text[..n]) && Begins(p, text[n..])
  {
    hide Divides;
    hide Fits;
    if Begins(Prefixed(i, p), text) {
      var all :| Divides(Prefixed(i, p), all, text);
      var n := FrontPiece(i, p, all, text);
    }
    if n :| 0 <= n <= |text| && Fits(i, text[..n]) && Begins(p, text[n..]) {
      var pieces :| Divides(p, pieces, text[n..]);
      DividesCons(i, p, text[..n], pieces, text);
      assert Divides(Prefixed(i, p), [text[..n]] + pieces, text);
    }
  }

  lemma FrontPiece(i: Item, p: Pattern, all: seq<string>, text: string) returns (n: nat)
    requires Divides(Prefixed(i, p), all, text)
    ensures n <= |text| && Fits(i, text[..n]) && Begins(p, text[n..])
  {
    hide Fits;
    var piece, pieces := all[0], all[1..];
    assert all == [piece] + pieces;
    ConcatCons(piece, pieces);
    n := |piece|;
    assert text[..n] == (piece + Concat(pieces))[..n] == piece;
    DividesCons(i, p, piece, pieces, text);
  }

  /** matchhere finds exactly the texts that the pattern begins. */
  lemma {:induction false} HereIsBegins(re: string, text: string)
    ensures Here(re, text) <==> Begins(Parse(re), text)
    decreases |re|, |text|, 0
  {
    hide Divides;
    hide Begins;
    if re == "" {
      EmptyBegins(text, false);
    } else if |re| > 1 && re[1] == '*' {
      RunIsBegins(re[0], re[2..], text);
    } else if re == "$" {
      EmptyBegins(text, true);
    } else {
      OneBegins(re[0], Parse(re[1..]), text);
      if text != "" { HereIsBegins(re[1..], text[1..]); }
    }
  }

  lemma EmptyBegins(text: string, atEnd: bool)
    ensures Begins(Pattern([], atEnd), text) <==> (atEnd ==> text == "")
  {
    var p := Pattern([], atEnd);
    assert Divides(p, [], text) <==> (atEnd ==> text == "");
    if pieces :| Divides(p, pieces, text) { assert pieces == []; }
  }

  lemma OneBegins(c: char, p: Pattern, text: string)
    ensures Begins(Prefixed(One(c), p), text) <==> text != "" && Takes(c, text[0]) && Begins(p, text[1..])
  {
    hide Begins;
    BeginsCons(One(c), p, text);
    if text != "" { assert text[..1] == [text[0]]; }
    if text != "" && Takes(c, text[0]) && Begins(p, text[1..]) {
      assert Fits(One(c), text[..1]) && Begins(p, text[1..]);
    }
  }

  lemma {:induction false} RunIsBegins(c: char, re: string, text: string)
    ensures Run(c, re, text) <==> Begins(Prefixed(Star(c), Parse(re)), text)
    decreases |re|, |text|, 1
  {
    hide Begins;
    hide Fits;
    HereIsBegins(re, text);
    StarBegins(c, Parse(re), text);
    if text != "" { RunIsBegins(c, re, text[1..]); }
  }

  lemma StarFits(c: char, text: string, n: nat)
    requires n <= |text|
    ensures Fits(Star(c), text[..n]) <==> forall k :: 0 <= k < n ==> Takes(c, text[k])
  {
    assert forall k :: 0 <= k < n ==> text[..n][k] == text[k];
  }

  // A star takes nothing, or one character and then more.
  lemma StarBegins(c: char, p: Pattern, text: string)
    ensures Begins(Prefixed(Star(c), p), text)
            <==> Begins(p, text) || (text != "" && Takes(c, text[0]) && Begins(Prefixed(Star(c), p), text[1..]))
  {
    hide Begins;
    hide Fits;
    BeginsCons(Star(c), p, text);
    if Begins(p, text) {
      StarFits(c, text, 0);
      assert text[0..] == text && Fits(Star(c), text[..0]);
    }
    if text != "" {
      BeginsCons(Star(c), p, text[1..]);
      if Begins(Prefixed(Star(c), p), text[1..]) && Takes(c, text[0]) { StarLonger(c, p, text); }
    }
    if n :| 0 <= n <= |text| && Fits(Star(c), text[..n]) && Begins(p, text[n..]) && !Begins(p, text) { StarShorter(c, p, text, n); }
  }

  lemma StarLonger(c: char, p: Pattern, text: string)
    requires text != "" && Takes(c, text[0])
    requires exists n :: 0 <= n <= |text[1..]| && Fits(Star(c), text[1..][..n]) && Begins(p, text[1..][n..])
    ensures exists n :: 0 <= n <= |text| && Fits(Star(c), text[..n]) && Begins(p, text[n..])
  {
    hide Begins;
    hide Fits;
    var n :| 0 <= n <= |text[1..]| && Fits(Star(c), text[1..][..n]) && Begins(p, text[1..][n..]);
    StarFits(c, text[1..], n);
    forall k | 0 <= k < n + 1 ensures Takes(c, text[k]) { if k > 0 { assert text[1..][k - 1] == text[k]; } }
    StarFits(c, text, n + 1);
    assert text[1..][n..] == text[n + 1..];
  }

  lemma StarShorter(c: char, p: Pattern, text: string, n: nat)
    requires n <= |text| && Fits(Star(c), text[..n]) && Begins(p, text[n..]) && !Begins(p, text)
    ensures text != "" && Takes(c, text[0])
    ensures exists m :: 0 <= m <= |text[1..]| && Fits(Star(c), text[1..][..m]) && Begins(p, text[1..][m..])
  {
    hide Begins;
    hide Fits;
    StarFits(c, text, n);
    var t := text[1..];
    assert forall k :: 0 <= k < n - 1 ==> t[k] == text[k + 1];
    StarFits(c, t, n - 1);
    assert t[n - 1..] == text[n..];
  }

  // ---- lines -------------------------------------------------------------------------------

  // The newline-terminated lines of the input; what follows the last newline is none.
  ghost function Lines(s: string): seq<string>
    decreases |s|
  {
    var k := Newline(s);
    if k == |s| then [] else [s[..k + 1]] + Lines(s[k + 1..])
  }

  ghost function Newline(s: string): (k: nat)
    ensures k <= |s| && (k < |s| ==> s[k] == '\n') && forall i :: 0 <= i < k ==> s[i] != '\n'
  {
    if s == "" || s[0] == '\n' then 0 else 1 + Newline(s[1..])
  }

  // A line matches without its newline.
  ghost predicate LineMatches(re: string, line: string) { line != "" && Matches(re, line[..|line| - 1]) }

  ghost function Selected(re: string, ls: seq<string>): string {
    if ls == [] then "" else (if LineMatches(re, ls[0]) then ls[0] else "") + Selected(re, ls[1..])
  }

  // The lines before the first one that does not fit the buffer.
  ghost function Fitting(ls: seq<string>): (n: nat)
    ensures n <= |ls| && (n < |ls| ==> |ls[n]| > 1023) && forall i :: 0 <= i < n ==> |ls[i]| <= 1023
  {
    if ls == [] || |ls[0]| > 1023 then 0 else 1 + Fitting(ls[1..])
  }

  // What grep prints.
  ghost function Output(re: string, s: string): string { Selected(re, Lines(s)[..Fitting(Lines(s))]) }

  lemma SelectedCons(re: string, line: string, ls: seq<string>)
    ensures Selected(re, [line] + ls) == (if LineMatches(re, line) then line else "") + Selected(re, ls)
  {
    hide LineMatches;
    assert ([line] + ls)[1..] == ls;
  }

  lemma Associates(a: string, b: string, c: string)
    ensures (a + b) + c == a + (b + c)
  {
  }

  lemma {:induction false} SelectedConcat(re: string, a: seq<string>, b: seq<string>)
    ensures Selected(re, a + b) == Selected(re, a) + Selected(re, b)
  {
    hide LineMatches;
    if a == [] {
      assert a + b == b;
    } else {
      SelectedConcat(re, a[1..], b);
      var rest := a[1..] + b;
      assert a + b == [a[0]] + rest;
      SelectedCons(re, a[0], a[1..]);
      SelectedCons(re, a[0], rest);
      Associates(if LineMatches(re, a[0]) then a[0] else "", Selected(re, a[1..]), Selected(re, b));
      assert [a[0]] + a[1..] == a;
    }
  }

  lemma {:induction false} SelectsNothing(re: string, ls: seq<string>)
    ensures Selected(re, ls) == "" <==> forall i :: 0 <= i < |ls| ==> !LineMatches(re, ls[i])
  {
    hide Matches;
    if ls != [] {
      SelectsNothing(re, ls[1..]);
      assert forall i :: 1 <= i < |ls| ==> ls[i] == ls[1..][i - 1];
    }
  }

  /** grep prints all matching lines exactly when none of them is, or comes after, a line of more
      than 1023 characters with its newline. */
  lemma PrintsAllIff(re: string, s: string)
    ensures var ls := Lines(s);
            Output(re, s) == Selected(re, ls) <==> forall i :: Fitting(ls) <= i < |ls| ==> !LineMatches(re, ls[i])
  {
    hide LineMatches;
    hide Selected;
    hide Fitting;
    hide Lines;
    var ls := Lines(s);
    var n := Fitting(ls);
    var before, after := ls[..n], ls[n..];
    assert ls == before + after;
    SelectedConcat(re, before, after);
    SelectsNothing(re, after);
    assert forall i :: n <= i < |ls| ==> ls[i] == after[i - n];
  }

  /** When every line fits the buffer, grep prints exactly the matching lines, in order. */
  lemma PrintsMatchingLines(re: string, s: string)
    requires forall i :: 0 <= i < |Lines(s)| ==> |Lines(s)[i]| <= 1023
    ensures Output(re, s) == Selected(re, Lines(s))
  {
    PrintsAllIff(re, s);
  }

  /** A line of 1024 characters, newline included, hides the line after it. */
  lemma LongLineHides()
    ensures var s := seq(1023, k => 'a') + "\n" + "b\n";
            Output("b", s) == "" && Selected("b", Lines(s)) == "b\n"
  {
    hide Matches;
    var long := seq(1023, k => 'a') + "\n";
    var s := long + "b\n";
    LongFirst(long, s);
    assert Lines(s) == [long, "b\n"];
    assert Output("b", s) == "" by { OutputEnds("b", s, 1023); }
    LettersDiffer(long[..1023]);
    assert "b\n"[..1] == "b";
    MatchesItself();
    SelectedCons("b", long, ["b\n"]);
    SelectedCons("b", "b\n", []);
    assert ["b\n"] == ["b\n"] + [];
    assert [long] + ["b\n"] == Lines(s);
  }

  lemma LongFirst(long: string, s: string)
    requires |long| == 1024 && long[1023] == '\n' && (forall k :: 0 <= k < 1023 ==> long[k] == 'a') && s == long + "b\n"
    ensures Lines(s) == [long, "b\n"]
  {
    assert Newline(s) == 1023;
    assert s[..1024] == long && s[1024..] == "b\n";
    assert Newline("b\n") == 1;
    assert "b\n"[..2] == "b\n" && "b\n"[2..] == "";
    assert Lines("b\n") == ["b\n"];
  }

  lemma MatchesItself()
    ensures Matches("b", "b")
  {
    HereIsBegins("b", "b");
    assert "b"[0..] == "b" && "b"[1..] == "";
    assert Here("b", "b");
  }

  lemma LettersDiffer(text: string)
    requires forall k :: 0 <= k < |text| ==> text[k] == 'a'
    ensures !Matches("b", text)
  {
    forall i | 0 <= i <= |text| ensures !Begins(Parse("b"), text[i..]) {
      HereIsBegins("b", text[i..]);
      assert "b"[1..] == "";
    }
  }

  // ---- one line off the front --------------------------------------------------------------

  lemma OutputLine(re: string, s: string, k: nat)
    requires k < |s| && s[k] == '\n' && k < 1023 && forall i :: 0 <= i < k ==> s[i] != '\n'
    ensures Output(re, s) == (if Matches(re, s[..k]) then s[..k + 1] else "") + Output(re, s[k + 1..])
  {
    hide Matches;
    var ls := Lines(s);
    assert Newline(s) == k;
    assert ls[1..] == Lines(s[k + 1..]);
    assert ls[..Fitting(ls)][1..] == ls[1..][..Fitting(ls) - 1];
    assert ls[0][..k] == s[..k];
  }

  lemma OutputEnds(re: string, s: string, n: nat)
    requires n <= |s| && (n == |s| || n == 1023) && forall i :: 0 <= i < n ==> s[i] != '\n'
    ensures Output(re, s) == ""
  {
    hide LineMatches;
    var ls := Lines(s);
    assert ls[..Fitting(ls)] == [];
  }
}
