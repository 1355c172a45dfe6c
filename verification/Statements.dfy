/**
 How a script of several SQL statements is cut into the statements that are sent one by one.
 A statement ends at a line that ends in a semicolon; blank lines are dropped.
 */
module Statements {
  import opened Common
  import opened Text

  predicate Closes(line: string) {
    var t := Trim(line);
    t != "" && t[|t| - 1] == ';'
  }

  /** The lines that are not blank. */
  function Kept(lines: seq<string>): (kept: seq<string>)
    ensures forall l :: l in kept <==> l in lines && !Blank(l)
  {
    if lines == [] then []
    else if Blank(lines[0]) then Kept(lines[1..])
    else [lines[0]] + Kept(lines[1..])
  }

  /** Every line with its newline. */
  function Joined(lines: seq<string>): string {
    if lines == [] then "" else lines[0] + "\n" + Joined(lines[1..])
  }

  function Concat(pieces: seq<string>): string {
    if pieces == [] then "" else pieces[0] + Concat(pieces[1..])
  }

  /** The lines of each statement. */
  function Groups(lines: seq<string>): (groups: seq<seq<string>>)
    ensures groups == [] <==> lines == []
  {
    if lines == [] then [] else Grow(lines[0], Groups(lines[1..]))
  }

  /** A line in front of statements: it joins the first of them, unless it ends one itself. */
  function Grow(line: string, rest: seq<seq<string>>): seq<seq<string>> {
    if Closes(line) || rest == [] then [[line]] + rest else [[line] + rest[0]] + rest[1..]
  }

  function Rendered(groups: seq<seq<string>>): (statements: seq<string>)
    ensures |statements| == |groups|
    ensures forall i :: 0 <= i < |groups| ==> statements[i] == Joined(groups[i])
  {
    seq(|groups|, i requires 0 <= i < |groups| => Joined(groups[i]))
  }

  function Ink(sql: string): seq<string> {
    Kept(Split(sql, '\n'))
  }

  function Statements(sql: string): seq<string> {
    Rendered(Groups(Ink(sql)))
  }

  /**
   What makes a list of statements the right cutting of some lines: nothing is lost or moved, no
   statement is empty, a statement goes on until its line closes it, and only the last one may be
   left open.
   */
  ghost predicate Cut(groups: seq<seq<string>>, lines: seq<string>) {
    && Flat(groups) == lines
    && (forall i :: 0 <= i < |groups| ==> WellFormed(groups[i]))
    && (forall i :: 0 <= i < |groups| - 1 ==> groups[i] != [] && Closes(groups[i][|groups[i]| - 1]))
  }

  ghost predicate WellFormed(group: seq<string>) {
    group != [] && forall j :: 0 <= j < |group| - 1 ==> !Closes(group[j])
  }

  lemma {:induction false} GroupsAreACut(lines: seq<string>)
    ensures Cut(Groups(lines), lines)
  {
    if lines == [] {
    } else {
      var rest := Groups(lines[1..]);
      GroupsAreACut(lines[1..]);
      GrowKeepsCut(lines[0], rest, lines[1..]);
      assert [lines[0]] + lines[1..] == lines;
    }
  }

  lemma GrowKeepsCut(line: string, rest: seq<seq<string>>, lines: seq<string>)
    requires Cut(rest, lines)
    ensures Cut(Grow(line, rest), [line] + lines)
  {
    if Closes(line) || rest == [] {
      CutCons([line], rest, lines);
    } else {
      CutTail(rest, lines);
      var g := [line] + rest[0];
      assert WellFormed(g);
      CutCons(g, rest[1..], Flat(rest[1..]));
      Regroup([line], rest[0], Flat(rest[1..]));
    }
  }

  lemma CutCons(g: seq<string>, rest: seq<seq<string>>, lines: seq<string>)
    requires Cut(rest, lines) && WellFormed(g) && (rest != [] ==> Closes(g[|g| - 1]))
    ensures Cut([g] + rest, g + lines)
  {
    FlatFirst(g, rest);
    assert forall i :: 0 < i < |[g] + rest| ==> ([g] + rest)[i] == rest[i - 1];
  }

  lemma CutTail(groups: seq<seq<string>>, lines: seq<string>)
    requires Cut(groups, lines) && groups != []
    ensures Cut(groups[1..], Flat(groups[1..])) && lines == groups[0] + Flat(groups[1..])
    ensures WellFormed(groups[0]) && (|groups| > 1 ==> Closes(groups[0][|groups[0]| - 1]))
  {}

  /** The cutting is the only one. */
  lemma {:induction false} OnlyOneCut(groups: seq<seq<string>>, lines: seq<string>)
    requires Cut(groups, lines)
    ensures groups == Groups(lines)
    decreases |groups|
  {
    if groups == [] {
    } else {
      var g, rest := groups[0], groups[1..];
      CutTail(groups, lines);
      OnlyOneCut(rest, Flat(rest));
      OneGroup(g);
      if rest != [] {
        GroupsConcat(g, Flat(rest));
      } else {
        assert lines == g;
      }
    }
  }

  lemma GrowConcat(line: string, a: seq<seq<string>>, b: seq<seq<string>>)
    requires a != [] || Closes(line)
    ensures Grow(line, a + b) == Grow(line, a) + b
  {
    if Closes(line) {
      Regroup([[line]], a, b);
    } else {
      Behead(a, b);
      Regroup([[line] + a[0]], a[1..], b);
    }
  }

  /** After a closing line a new statement begins. */
  lemma {:induction false} GroupsConcat(a: seq<string>, b: seq<string>)
    requires a == [] || Closes(a[|a| - 1])
    ensures Groups(a + b) == Groups(a) + Groups(b)
  {
    if a == [] {
      assert a + b == b;
    } else {
      GroupsConcat(a[1..], b);
      assert (a + b)[1..] == a[1..] + b;
      GrowConcat(a[0], Groups(a[1..]), Groups(b));
    }
  }

  /** Lines of which none but the last closes are one statement. */
  lemma {:induction false} OneGroup(g: seq<string>)
    requires WellFormed(g)
    ensures Groups(g) == [g]
  {
    if |g| > 1 {
      assert WellFormed(g[1..]);
      OneGroup(g[1..]);
      GrowOne(g[0], g[1..]);
      assert [g[0]] + g[1..] == g;
    } else {
      assert g[1..] == [] && Groups(g[1..]) == [];
      assert Grow(g[0], []) == [[g[0]]];
      assert g == [g[0]];
    }
  }

  lemma GrowOne(line: string, group: seq<string>)
    requires !Closes(line)
    ensures Grow(line, [group]) == [[line] + group]
  {
    assert [group][1..] == [];
  }

  lemma {:induction false} KeptConcat(a: seq<string>, b: seq<string>)
    ensures Kept(a + b) == Kept(a) + Kept(b)
  {
    if a == [] {
      assert a + b == b;
    } else {
      KeptConcat(a[1..], b);
      Behead(a, b);
    }
  }

  lemma {:induction false} JoinedConcat(a: seq<string>, b: seq<string>)
    ensures Joined(a + b) == Joined(a) + Joined(b)
  {
    if a == [] {
      assert a + b == b;
    } else {
      JoinedConcat(a[1..], b);
      Behead(a, b);
      Regroup(a[0] + "\n", Joined(a[1..]), Joined(b));
    }
  }

  lemma {:induction false} ConcatRendered(groups: seq<seq<string>>)
    ensures Concat(Rendered(groups)) == Joined(Flat(groups))
  {
    if groups == [] {
    } else {
      ConcatRendered(groups[1..]);
      assert Rendered(groups)[1..] == Rendered(groups[1..]);
      JoinedConcat(groups[0], Flat(groups[1..]));
    }
  }

  /** The statements together are the lines that are not blank, in their order. */
  lemma NothingIsLost(sql: string)
    ensures Concat(Statements(sql)) == Joined(Ink(sql))
  {
    GroupsAreACut(Ink(sql));
    ConcatRendered(Groups(Ink(sql)));
  }

  lemma {:induction false} SplitJoined(lines: seq<string>)
    requires forall l :: l in lines ==> '\n' !in l
    ensures Split(Joined(lines), '\n') == lines + [""]
  {
    if lines == [] {
    } else {
      SplitJoined(lines[1..]);
      SplitFirst(lines[0], '\n', Joined(lines[1..]));
      assert lines[0] + "\n" + Joined(lines[1..]) == lines[0] + ['\n'] + Joined(lines[1..]);
    }
  }

  lemma {:induction false} KeptInk(lines: seq<string>)
    requires forall l :: l in lines ==> !Blank(l)
    ensures Kept(lines) == lines
  {
    if lines == [] {
    } else {
      KeptInk(lines[1..]);
      assert lines[0] in lines;
    }
  }

  /** Reading back lines that were kept finds the same lines. */
  lemma InkOfJoined(lines: seq<string>)
    requires forall l :: l in lines ==> '\n' !in l && !Blank(l)
    ensures Ink(Joined(lines)) == lines
  {
    SplitJoined(lines);
    KeptConcat(lines, [""]);
    KeptInk(lines);
  }

  /** Cutting the statements again, after putting them together, gives the same statements. */
  lemma ReparseIsStable(sql: string)
    ensures Statements(Concat(Statements(sql))) == Statements(sql)
  {
    NothingIsLost(sql);
    InkOfJoined(Ink(sql));
  }

  /** Each statement is, by itself, one statement. */
  lemma StatementStandsAlone(sql: string, i: nat)
    requires i < |Statements(sql)|
    ensures Statements(Statements(sql)[i]) == [Statements(sql)[i]]
  {
    var lines := Ink(sql);
    var groups := Groups(lines);
    GroupsAreACut(lines);
    var g := groups[i];
    assert WellFormed(g);
    forall l | l in g ensures l in lines {
      InFlat(groups, i, l);
    }
    InkOfJoined(g);
    OneGroup(g);
    assert Rendered([g]) == [Joined(g)];
  }

  lemma {:induction false} InFlat(groups: seq<seq<string>>, i: nat, l: string)
    requires i < |groups| && l in groups[i]
    ensures l in Flat(groups)
  {
    if i == 0 {
    } else {
      InFlat(groups[1..], i - 1, l);
    }
  }

  /**
   Where the lines of a statement stand: a semicolon ends its last line and no other; only the
   last statement of a script may lack it.
   */
  lemma SemicolonsEndStatements(sql: string)
    ensures var groups := Groups(Ink(sql));
            && Flat(groups) == Ink(sql)
            && |Statements(sql)| == |groups|
            && forall i :: 0 <= i < |groups| ==>
                && WellFormed(groups[i])
                && Statements(sql)[i] == Joined(groups[i])
                && (i < |groups| - 1 ==> Closes(groups[i][|groups[i]| - 1]))
  {
    GroupsAreACut(Ink(sql));
  }

  /** A script whose last line closes can be cut apart from whatever follows it. */
  lemma ScriptsCompose(s: string, t: string)
    requires var lines := Ink(s); lines == [] || Closes(lines[|lines| - 1])
    ensures Statements(s + "\n" + t) == Statements(s) + Statements(t)
  {
    InkConcat(s, t);
    GroupsConcat(Ink(s), Ink(t));
    RenderedConcat(Groups(Ink(s)), Groups(Ink(t)));
  }

  lemma RenderedConcat(a: seq<seq<string>>, b: seq<seq<string>>)
    ensures Rendered(a + b) == Rendered(a) + Rendered(b)
  {}

  lemma InkConcat(s: string, t: string)
    ensures Ink(s + "\n" + t) == Ink(s) + Ink(t)
  {
    SplitConcat(s, '\n', t);
    assert s + "\n" + t == s + ['\n'] + t;
    KeptConcat(Split(s, '\n'), Split(t, '\n'));
  }

  lemma {:induction false} SplitConcat(a: string, sep: char, b: string)
    ensures Split(a + [sep] + b, sep) == Split(a, sep) + Split(b, sep)
  {
    if a == "" {
      assert a + [sep] + b == [sep] + b;
    } else {
      SplitConcat(a[1..], sep, b);
      assert (a + [sep] + b)[1..] == a[1..] + [sep] + b;
      var rest := Split(a[1..], sep);
      Behead(rest, Split(b, sep));
      Regroup([""], rest, Split(b, sep));
      Regroup([[a[0]] + rest[0]], rest[1..], Split(b, sep));
    }
  }

  /** Semicolons inside a line do not cut it. */
  lemma OneLineIsOneStatement(line: string)
    requires '\n' !in line && !Blank(line)
    ensures Statements(line) == [line + "\n"]
  {
    SplitPiece(line, '\n');
    assert Kept([line]) == [line];
    assert Groups([line]) == [[line]];
    assert Joined([line]) == line + "\n";
    assert Rendered([[line]]) == [line + "\n"];
  }

  method ParseSQLStatements(sql: string) returns (statements: seq<string>)
    ensures statements == Statements(sql)
  {
    statements := [];
    var current := "";
    var lines := Split(sql, '\n');
    ghost var done: seq<seq<string>> := [];
    ghost var open: seq<string> := [];
    for i := 0 to |lines|
      invariant statements == Rendered(done) && current == Joined(open)
      invariant Midway(Kept(lines[..i]), done, open)
    {
      var line := lines[i];
      var trimmed := Trim(line);
      SeeLine(lines, i);
      if trimmed == "" {
        continue;
      }
      AddLine(Kept(lines[..i]), done, open, line);
      current := current + line;
      current := current + "\n";
      open := open + [line];
      if trimmed[|trimmed| - 1] == ';' {
        statements := statements + [current];
        CloseGroup(Flat(done) + open, done, open);
        current := "";
        done := done + [open];
        open := [];
      }
    }
    assert lines[..|lines|] == lines;
    if |current| > 0 {
      statements := statements + [current];
      Finish(done, open);
      assert statements == Rendered(done + [open]);
    } else {
      assert Flat(done) + open == Flat(done);
    }
  }

  /** The lines seen so far: those of finished statements, and those of the next one. */
  ghost predicate Midway(kept: seq<string>, done: seq<seq<string>>, open: seq<string>) {
    && (forall j :: 0 <= j < |open| ==> !Closes(open[j]))
    && kept == Flat(done) + open
    && Groups(Flat(done)) == done
    && AllClosed(done)
  }

  lemma SeeLine(lines: seq<string>, i: nat)
    requires i < |lines|
    ensures Trim(lines[i]) == "" ==> Kept(lines[..i + 1]) == Kept(lines[..i])
    ensures Trim(lines[i]) != "" ==> Kept(lines[..i + 1]) == Kept(lines[..i]) + [lines[i]]
  {
    assert lines[..i + 1] == lines[..i] + [lines[i]];
    KeptConcat(lines[..i], [lines[i]]);
    TrimBlank(lines[i]);
    assert Kept([lines[i]]) == if Blank(lines[i]) then [] else [lines[i]];
  }

  lemma AddLine(kept: seq<string>, done: seq<seq<string>>, open: seq<string>, line: string)
    requires Midway(kept, done, open)
    ensures WellFormed(open + [line])
    ensures kept + [line] == Flat(done) + (open + [line])
    ensures !Closes(line) ==> Midway(kept + [line], done, open + [line])
    ensures Joined(open + [line]) == Joined(open) + line + "\n"
  {
    Regroup(Flat(done), open, [line]);
    JoinedConcat(open, [line]);
    Regroup(Joined(open), line, "\n");
    assert Joined([line]) == line + "\n";
  }

  lemma CloseGroup(kept: seq<string>, done: seq<seq<string>>, open: seq<string>)
    requires Groups(Flat(done)) == done && AllClosed(done) && kept == Flat(done) + open
    requires WellFormed(open) && Closes(open[|open| - 1])
    ensures Midway(kept, done + [open], [])
    ensures Rendered(done) + [Joined(open)] == Rendered(done + [open])
  {
    Finish(done, open);
    ClosedToo(done, open);
    RenderedConcat(done, [open]);
    assert Rendered([open]) == [Joined(open)];
    assert Flat(done + [open]) + [] == Flat(done + [open]);
  }

  lemma ClosedToo(done: seq<seq<string>>, g: seq<string>)
    requires AllClosed(done) && g != [] && Closes(g[|g| - 1])
    ensures AllClosed(done + [g])
  {}

  ghost predicate AllClosed(groups: seq<seq<string>>) {
    forall i :: 0 <= i < |groups| ==> groups[i] != [] && Closes(groups[i][|groups[i]| - 1])
  }

  /** One more statement behind finished ones. */
  lemma Finish(done: seq<seq<string>>, g: seq<string>)
    requires AllClosed(done) && Groups(Flat(done)) == done && WellFormed(g)
    ensures Flat(done + [g]) == Flat(done) + g
    ensures Groups(Flat(done) + g) == done + [g]
  {
    FlatOne(done, g);
    FlatEnd(done);
    GroupsConcat(Flat(done), g);
    OneGroup(g);
  }

  lemma {:induction false} FlatEnd(done: seq<seq<string>>)
    requires AllClosed(done)
    ensures done != [] ==> Flat(done) != [] && Closes(Flat(done)[|Flat(done)| - 1])
  {
    if done == [] {
    } else {
      FlatEnd(done[1..]);
      var g := done[0];
      assert Closes(g[|g| - 1]);
      assert done[1..] == [] ==> Flat(done) == g;
    }
  }

  /** strings.TrimSuffix for one semicolon. */
  function WithoutSemicolon(s: string): string {
    if s != "" && s[|s| - 1] == ';' then s[..|s| - 1] else s
  }

  /** What is sent for one statement; the empty text means that nothing is sent. */
  function Sent(statement: string): string {
    Trim(WithoutSemicolon(Trim(statement)))
  }

  /** What a whole script sends when every statement succeeds. */
  function Script(statements: seq<string>): (sent: seq<string>)
    ensures "" !in sent
  {
    if statements == [] then [] else ToSend(statements[0]) + Script(statements[1..])
  }

  function ToSend(statement: string): (sent: seq<string>)
    ensures "" !in sent
  {
    if Sent(statement) == "" then [] else [Sent(statement)]
  }

  /** A script from its statement number `k` on. */
  lemma ScriptStep(statements: seq<string>, k: nat)
    requires k < |statements|
    ensures Sent(statements[k]) == "" ==> Script(statements[k..]) == Script(statements[k + 1..])
    ensures Sent(statements[k]) != "" ==>
      Script(statements[k..]) == [Sent(statements[k])] + Script(statements[k + 1..])
  {
    assert statements[k..][1..] == statements[k + 1..];
  }

  // ----- what is sent, in plain words -----------------------------------------------------

  /** A line closes a statement if a semicolon is the last thing on it but for spaces. */
  lemma ClosesIff(line: string)
    ensures Closes(line) <==> exists body, blanks :: Blank(blanks) && line == body + ";" + blanks
  {
    var t := Trim(line);
    var a, b := TrimIs(line);
    if Closes(line) {
      assert t == t[..|t| - 1] + ";";
      assert line == (a + t[..|t| - 1]) + ";" + b;
    }
    if body, blanks :| Blank(blanks) && line == body + ";" + blanks {
      assert line[|body|] == ';' && line[|body|] in line;
      TrimBlank(line);
      assert (a + t)[|a + t| - 1] == t[|t| - 1];
      EndsOnce(a + t, b, body + ";", blanks);
      assert (body + ";")[|body|] == ';';
    }
  }

  lemma SpacesBehind(x: string, a: string)
    requires Blank(a)
    ensures forall i :: |x| <= i < |x + a| ==> IsSpace((x + a)[i])
  {
    forall i | |x| <= i < |x + a| ensures IsSpace((x + a)[i]) {
      assert (x + a)[i] == a[i - |x|] && a[i - |x|] in a;
    }
  }

  /** Where text ends but for spaces is one place. */
  lemma EndsOnce(x: string, a: string, y: string, b: string)
    requires x + a == y + b && Blank(a) && Blank(b)
    requires y != "" && !IsSpace(y[|y| - 1])
    ensures |y| <= |x| && (!IsSpace(x[|x| - 1]) ==> x == y)
  {
    SpacesBehind(x, a);
    SpacesBehind(y, b);
    assert (y + b)[|y| - 1] == y[|y| - 1];
    assert (x + a)[|x| - 1] == x[|x| - 1];
    assert x == (x + a)[..|x|] && y == (y + b)[..|y|];
  }

  /** Text that begins with no space has none in front of it when it is trimmed. */
  lemma NothingInFront(a: string, x: string)
    requires Blank(a) && (a + x != "" ==> !IsSpace((a + x)[0]))
    ensures a == ""
  {
    SpacesInFront(a, x);
  }

  lemma SpacesInFront(a: string, x: string)
    requires Blank(a)
    ensures forall i :: 0 <= i < |a| ==> IsSpace((a + x)[i])
  {
    forall i | 0 <= i < |a| ensures IsSpace((a + x)[i]) {
      assert (a + x)[i] == a[i] && a[i] in a;
    }
  }

  /** A script of several statements sends what they send, one after the other. */
  lemma {:induction false} ScriptConcat(a: seq<string>, b: seq<string>)
    ensures Script(a + b) == Script(a) + Script(b)
  {
    if a == [] {
      assert a + b == b;
    } else {
      ScriptConcat(a[1..], b);
      Behead(a, b);
      Regroup(ToSend(a[0]), Script(a[1..]), Script(b));
    }
  }

  /**
   What one statement sends: nothing for blank text and for a lone semicolon; its trimming, if
   that has no final semicolon; and otherwise the trimming without the one semicolon and without
   the spaces before it.
   */
  lemma WhatAStatementSends(statement: string)
    ensures Trim(statement) == "" <==> Blank(statement)
    ensures var t := Trim(statement);
      if t == "" || t == ";" then Script([statement]) == []
      else
        && |Script([statement])| == 1
        && var sent := Script([statement])[0];
        && sent != "" && !IsSpace(sent[|sent| - 1])
        && if t[|t| - 1] != ';' then sent == t
           else exists blanks :: Blank(blanks) && t == sent + blanks + ";"
  {
    var t := Trim(statement);
    TrimBlank(statement);
    var _, _ := TrimIs(statement);
    assert [statement][1..] == [] && Script([statement]) == ToSend(statement);
    if t != "" && t[|t| - 1] != ';' {
      TrimTight(t);
    } else if t != "" {
      BeforeSemicolon(t[..|t| - 1], t);
    }
  }

  /** The text before a final semicolon. */
  lemma BeforeSemicolon(body: string, t: string)
    requires t == body + ";" && Tight(t)
    ensures Trim(body) == "" <==> body == ""
    ensures Trim(body) != "" ==> exists blanks :: Blank(blanks) && t == Trim(body) + blanks + ";"
    ensures Trim(body) != "" ==> !IsSpace(Trim(body)[|Trim(body)| - 1])
  {
    TrimBlank(body);
    if body != "" {
      var c, d := TrimIs(body);
      assert body[0] == t[0] && body[0] in body;
      assert body == c + (Trim(body) + d);
      NothingInFront(c, Trim(body) + d);
      assert t == Trim(body) + d + ";";
    }
  }

  /** One line of text, with or without a semicolon behind it, is sent as it is. */
  lemma OneLineIsSent(x: string)
    requires x != "" && Tight(x) && '\n' !in x && x[|x| - 1] != ';'
    ensures Script(Statements(x)) == [x] && Script(Statements(x + ";")) == [x]
  {
    assert x[0] in x;
    OneLineIsOneStatement(x);
    LineIsSent(x, x);
    assert (x + ";")[0] == x[0] && (x + ";")[0] in x + ";";
    OneLineIsOneStatement(x + ";");
    LineIsSent(x + ";", x);
  }

  lemma LineIsSent(line: string, x: string)
    requires x != "" && Tight(x) && x[|x| - 1] != ';' && (line == x || line == x + ";")
    ensures Script([line + "\n"]) == [x]
  {
    var statement := line + "\n";
    var a, b := TrimIs(statement);
    TightInside(statement, line);
    WhatAStatementSends(statement);
    assert line[0] in statement;
    var sent := Script([statement])[0];
    if line == x + ";" {
      var blanks :| Blank(blanks) && line == sent + blanks + ";";
      assert (sent + blanks + ";")[..|line| - 1] == sent + blanks && line[..|line| - 1] == x;
      EndsOnce(sent, blanks, x, "");
    }
  }

  lemma TightInside(statement: string, line: string)
    requires statement == line + "\n" && line != "" && Tight(line)
    ensures Trim(statement) == line
  {
    var a, b := TrimIs(statement);
    assert line[0] in statement;
    TrimBlank(statement);
    assert statement == a + (Trim(statement) + b);
    NothingInFront(a, Trim(statement) + b);
    EndsOnce(Trim(statement), b, line, "\n");
  }

  /** Of single lines just the blank ones are dropped. */
  lemma KeptOne(line: string)
    ensures Kept([line]) == if Blank(line) then [] else [line]
  {
    assert [line][1..] == [];
  }
}
