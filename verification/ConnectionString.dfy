/**
 The connection-string parser, a character automaton, against the builder and the appenders that
 write what it reads.
 */
module ConnectionString {
  import opened Common
  import opened Text

  /** The variables of the parser's loop. */
  datatype Scan = Scan(
    pairs: map<string, string>, key: string, value: string, inValue: bool, inQuote: bool, escaped: bool)

  const START: Scan := Scan(map[], "", "", false, false, false)

  /** What a `;`, a line end or the end of the text does with the pair read so far. */
  function Flush(s: Scan): map<string, string> {
    var key := Trim(s.key);
    if key != "" then s.pairs[Lower(key) := Trim(s.value)] else s.pairs
  }

  /** One character; `last` says no character follows it. None is the source's format error. */
  function Next(s: Scan, ch: char, last: bool): Option<Scan> {
    if s.escaped then
      Some(s.(value := if s.inValue then s.value + [ch] else s.value, escaped := false))
    else if ch == '\\' && !last then Some(s.(escaped := true))
    else if ch == '"' then
      if !s.inQuote && !s.inValue then None else Some(s.(inQuote := !s.inQuote))
    else if ch == '=' && !s.inQuote && !s.inValue then Some(s.(inValue := true))
    else if (ch == ';' || ch == '\n' || ch == '\r') && !s.inQuote && s.inValue then
      Some(Scan(Flush(s), "", "", false, s.inQuote, false))
    else if IsSpace(ch) && !s.inQuote && !s.inValue then Some(s)
    else if s.inValue then Some(s.(value := s.value + [ch]))
    else Some(s.(key := s.key + [ch]))
  }

  /** A stretch of text; `more` says something follows it. */
  function Feed(s: Scan, text: string, more: bool): Option<Scan>
    decreases |text|
  {
    if text == "" then Some(s)
    else
      match Next(s, text[0], |text| == 1 && !more)
      case None => None
      case Some(t) => Feed(t, text[1..], more)
  }

  /** The parser: the pairs of the text, or the format error. */
  function Parse(text: string): Option<map<string, string>> {
    match Feed(START, text, false)
    case None => None
    case Some(s) => Some(Flush(s))
  }

  /** The source's loop. */
  method ParseConnectionString(text: string) returns (r: Option<map<string, string>>)
    ensures r == Parse(text)
  {
    var pairs: map<string, string> := map[];
    var currentKey, currentValue := "", "";
    var inValue, inQuote, escaped := false, false, false;
    for i := 0 to |text|
      invariant Feed(START, text[..i], i < |text|) ==
        Some(Scan(pairs, currentKey, currentValue, inValue, inQuote, escaped))
    {
      var ch := text[i];
      assert text[..i + 1] == text[..i] + [ch];
      FeedConcat(START, text[..i], [ch], i + 1 < |text|);
      if escaped {
        if inValue {
          currentValue := currentValue + [ch];
        }
        escaped := false;
        continue;
      }
      if ch == '\\' && i + 1 < |text| {
        escaped := true;
        continue;
      }
      if ch == '"' {
        if !inQuote && !inValue {
          FeedFails(START, text, i + 1);
          return None;
        }
        inQuote := !inQuote;
        continue;
      }
      if ch == '=' && !inQuote && !inValue {
        inValue := true;
        continue;
      }
      if (ch == ';' || ch == '\n' || ch == '\r') && !inQuote && inValue {
        var key, value := Trim(currentKey), Trim(currentValue);
        if key != "" {
          pairs := pairs[Lower(key) := value];
        }
        currentKey, currentValue := "", "";
        inValue := false;
        continue;
      }
      if IsSpace(ch) && !inQuote && !inValue {
        continue;
      }
      if inValue {
        currentValue := currentValue + [ch];
      } else {
        currentKey := currentKey + [ch];
      }
    }
    assert text[..|text|] == text;
    if |currentKey| > 0 {
      var key, value := Trim(currentKey), Trim(currentValue);
      if key != "" {
        pairs := pairs[Lower(key) := value];
      }
    }
    return Some(pairs);
  }

  // ----- feeding text piece by piece ------------------------------------------------------

  lemma {:induction false} FeedConcat(s: Scan, a: string, b: string, more: bool)
    ensures Feed(s, a + b, more) ==
      match Feed(s, a, b != "" || more)
      case None => None
      case Some(t) => Feed(t, b, more)
    decreases |a|
  {
    if a == "" {
      assert a + b == b;
    } else {
      var n := Next(s, a[0], |a| == 1 && !(b != "" || more));
      assert (a + b)[1..] == a[1..] + b;
      if n.Some? {
        FeedConcat(n.value, a[1..], b, more);
      }
    }
  }

  lemma FeedFails(s: Scan, text: string, i: nat)
    requires i <= |text| && Feed(s, text[..i], i < |text|) == None
    ensures Feed(s, text, false) == None
  {
    FeedConcat(s, text[..i], text[i..], false);
    assert text == text[..i] + text[i..];
  }

  /** Whether anything follows only matters after a trailing backslash. */
  lemma {:induction false} FeedMore(s: Scan, text: string)
    requires Feed(s, text, true).Some? && !Feed(s, text, true).value.escaped
    ensures Feed(s, text, false) == Feed(s, text, true)
    decreases |text|
  {
    if |text| == 1 {
      assert Feed(Next(s, text[0], false).value, text[1..], true) == Next(s, text[0], false);
    } else if text != "" {
      FeedMore(Next(s, text[0], false).value, text[1..]);
    }
  }

  ghost function Onto(base: map<string, string>, s: Scan): Scan {
    s.(pairs := base + s.pairs)
  }

  lemma FlushOnto(base: map<string, string>, s: Scan)
    ensures Flush(Onto(base, s)) == base + Flush(s)
  {
    assert base + s.pairs[Lower(Trim(s.key)) := Trim(s.value)] == (base + s.pairs)[Lower(Trim(s.key)) := Trim(s.value)];
  }

  /** A character that ends a pair. */
  predicate Ends(s: Scan, ch: char) {
    !s.escaped && (ch == ';' || ch == '\n' || ch == '\r') && !s.inQuote && s.inValue
  }

  lemma NextOnto(base: map<string, string>, s: Scan, ch: char, last: bool)
    ensures Next(Onto(base, s), ch, last) ==
      match Next(s, ch, last)
      case None => None
      case Some(t) => Some(Onto(base, t))
  {
    if Ends(s, ch) {
      FlushOnto(base, s);
    } else {
      NextKeepsPairs(base, s, ch, last);
    }
  }

  lemma NextKeepsPairs(base: map<string, string>, s: Scan, ch: char, last: bool)
    requires !Ends(s, ch)
    ensures Next(Onto(base, s), ch, last) ==
      match Next(s, ch, last)
      case None => None
      case Some(t) => Some(Onto(base, t))
  {}

  /** Earlier pairs do not influence how text is read; later ones override them. */
  lemma {:induction false} FeedOnto(base: map<string, string>, s: Scan, text: string, more: bool)
    ensures Feed(Onto(base, s), text, more) ==
      match Feed(s, text, more)
      case None => None
      case Some(t) => Some(Onto(base, t))
    decreases |text|
  {
    if text == "" {
    } else {
      NextOnto(base, s, text[0], |text| == 1 && !more);
      var n := Next(s, text[0], |text| == 1 && !more);
      if n.Some? {
        FeedOnto(base, n.value, text[1..], more);
      }
    }
  }

  // ----- the format, in two mutually recursive rules --------------------------------------

  function WithPair(pairs: map<string, string>, key: string, value: string): map<string, string> {
    if Trim(key) == "" then pairs else pairs[Lower(Trim(key)) := Trim(value)]
  }

  /**
   A key: up to the first `=`. Spaces in it are dropped, and so is an escaped character with its
   backslash; a quote is an error. A key without `=` has the empty value.
   */
  function ReadKey(text: string, key: string, pairs: map<string, string>): Option<map<string, string>>
    decreases |text|
  {
    if text == "" then Some(WithPair(pairs, key, ""))
    else
      var c := text[0];
      if c == '\\' && |text| > 1 then ReadKey(text[2..], key, pairs)
      else if c == '"' then None
      else if c == '=' then ReadValue(text[1..], key, "", false, pairs)
      else ReadKey(text[1..], if IsSpace(c) then key else key + [c], pairs)
  }

  /**
   A value: up to the first `;` or line end that is neither quoted nor escaped. Quotes switch
   quoting on and off and are dropped; a backslash makes the next character an ordinary one.
   */
  function ReadValue(text: string, key: string, value: string, quoted: bool, pairs: map<string, string>)
    : Option<map<string, string>>
    decreases |text|
  {
    if text == "" then Some(WithPair(pairs, key, value))
    else
      var c := text[0];
      if c == '\\' && |text| > 1 then ReadValue(text[2..], key, value + [text[1]], quoted, pairs)
      else if c == '"' then ReadValue(text[1..], key, value, !quoted, pairs)
      else if (c == ';' || c == '\n' || c == '\r') && !quoted then ReadKey(text[1..], "", WithPair(pairs, key, value))
      else ReadValue(text[1..], key, value + [c], quoted, pairs)
  }

  /** The pairs the automaton ends with. */
  function Result(s: Option<Scan>): Option<map<string, string>> {
    match s
    case None => None
    case Some(t) => Some(Flush(t))
  }

  /** A character behind a backslash, unless the backslash is the last of all. */
  lemma FeedEscape(s: Scan, text: string)
    requires !s.escaped && |text| > 1 && text[0] == '\\'
    ensures Feed(s, text, false) ==
      Feed(s.(value := if s.inValue then s.value + [text[1]] else s.value), text[2..], false)
  {
    assert text[1..][1..] == text[2..];
    var t := s.(escaped := true);
    assert Next(s, text[0], false) == Some(t);
    assert Feed(t, text[1..], false) == Feed(Next(t, text[1], |text| == 2).value, text[2..], false);
  }

  lemma {:induction false} KeyIsRead(text: string, key: string, pairs: map<string, string>)
    ensures Result(Feed(Scan(pairs, key, "", false, false, false), text, false)) == ReadKey(text, key, pairs)
    decreases |text|
  {
    var s := Scan(pairs, key, "", false, false, false);
    if text == "" {
      assert Feed(s, text, false) == Some(s);
    } else if text[0] == '\\' && |text| > 1 {
      FeedEscape(s, text);
      KeyIsRead(text[2..], key, pairs);
    } else if text[0] == '=' {
      ValueIsRead(text[1..], key, "", false, pairs);
    } else if text[0] != '"' {
      KeyIsRead(text[1..], if IsSpace(text[0]) then key else key + [text[0]], pairs);
    }
  }

  lemma {:induction false} ValueIsRead(
    text: string, key: string, value: string, quoted: bool, pairs: map<string, string>)
    ensures Result(Feed(Scan(pairs, key, value, true, quoted, false), text, false)) ==
      ReadValue(text, key, value, quoted, pairs)
    decreases |text|
  {
    var s := Scan(pairs, key, value, true, quoted, false);
    if text == "" {
      assert Feed(s, text, false) == Some(s);
    } else if text[0] == '\\' && |text| > 1 {
      FeedEscape(s, text);
      ValueIsRead(text[2..], key, value + [text[1]], quoted, pairs);
    } else if text[0] == '"' {
      ValueIsRead(text[1..], key, value, !quoted, pairs);
    } else if Ends(s, text[0]) {
      KeyIsRead(text[1..], "", WithPair(pairs, key, value));
    } else {
      ValueIsRead(text[1..], key, value + [text[0]], quoted, pairs);
    }
  }

  /** The automaton reads exactly the format. */
  lemma ParseIsTheFormat(text: string)
    ensures Parse(text) == ReadKey(text, "", map[])
  {
    KeyIsRead(text, "", map[]);
  }

  // ----- parsing is compositional ---------------------------------------------------------

  /** The text ends inside an unquoted value, and not with a backslash still waiting for its character. */
  predicate OpenValue(text: string) {
    match Feed(START, text, true)
    case None => false
    case Some(s) => s.inValue && !s.inQuote && !s.escaped
  }

  lemma ParseOpen(text: string)
    requires OpenValue(text)
    ensures Parse(text) == Some(Flush(Feed(START, text, true).value))
  {
    FeedMore(START, text);
  }

  /** Text after an open value and a `;` is parsed on its own and overrides. */
  lemma ParseComposes(s: string, t: string)
    requires OpenValue(s)
    ensures Parse(s).Some?
    ensures Parse(s + ";" + t) == match Parse(t) case None => None case Some(q) => Some(Parse(s).value + q)
  {
    ParseOpen(s);
    var open := Feed(START, s, true).value;
    var base := Flush(open);
    assert s + ";" + t == s + (";" + t);
    FeedConcat(START, s, ";" + t, false);
    assert (";" + t)[1..] == t;
    assert Next(open, ';', t == "") == Some(Onto(base, START)) by {
      assert base + map[] == base;
    }
    assert Feed(open, ";" + t, false) == Feed(Onto(base, START), t, false);
    FeedOnto(base, START, t, false);
    if Feed(START, t, false).Some? {
      var r := Feed(START, t, false).value;
      FlushOnto(base, r);
    }
  }

  // ----- one parameter --------------------------------------------------------------------

  /** A character that is never anything but itself in a value. */
  predicate Plain(c: char) {
    c != ';' && c != '"' && c != '\\' && c != '\r' && c != '\n'
  }

  /** A value that survives: nothing special inside, no surrounding blanks. */
  predicate CleanValue(v: string) {
    (forall c :: c in v ==> Plain(c)) && (v != "" ==> !IsSpace(v[0]) && !IsSpace(v[|v| - 1]))
  }

  predicate CleanKey(k: string) {
    k != "" && forall c :: c in k ==> Plain(c) && c != '=' && !IsSpace(c)
  }

  /** The builder's and the appenders' own keys are runs of capital letters. */
  predicate Capitals(k: string) {
    k != "" && forall i :: 0 <= i < |k| ==> 'A' <= k[i] <= 'Z'
  }

  lemma CapitalsAreClean(k: string)
    requires Capitals(k)
    ensures CleanKey(k)
  {}

  function Param(k: string, v: string): string {
    k + "=" + v
  }

  lemma {:induction false} FeedKey(s: Scan, k: string)
    requires !s.inValue && !s.inQuote && !s.escaped
    requires forall c :: c in k ==> Plain(c) && c != '=' && !IsSpace(c)
    ensures Feed(s, k, true) == Some(s.(key := s.key + k))
    decreases |k|
  {
    if k == "" {
      assert s.key + k == s.key;
    } else {
      assert k[0] in k;
      var t := s.(key := s.key + [k[0]]);
      FeedKey(t, k[1..]);
      assert s.key + [k[0]] + k[1..] == s.key + k;
    }
  }

  lemma {:induction false} FeedValue(s: Scan, v: string, more: bool)
    requires s.inValue && !s.escaped
    requires forall c :: c in v ==> Plain(c)
    ensures Feed(s, v, more) == Some(s.(value := s.value + v))
    decreases |v|
  {
    if v == "" {
      assert s.value + v == s.value;
    } else {
      assert v[0] in v;
      var t := s.(value := s.value + [v[0]]);
      FeedValue(t, v[1..], more);
      assert s.value + [v[0]] + v[1..] == s.value + v;
    }
  }

  lemma FeedParam(s: Scan, k: string, v: string, more: bool)
    requires !s.inValue && !s.inQuote && !s.escaped && s.value == ""
    requires CleanKey(k) && forall c :: c in v ==> Plain(c)
    ensures Feed(s, Param(k, v), more) == Some(s.(key := s.key + k, value := v, inValue := true))
  {
    var eq := ['='] + v;
    assert Param(k, v) == k + eq;
    FeedConcat(s, k, eq, more);
    FeedKey(s, k);
    var t := s.(key := s.key + k);
    assert eq[1..] == v;
    FeedValue(t.(inValue := true), v, more);
    assert "" + v == v;
  }

  /** A clean parameter alone is read as its key, in lower case, with its value, and stays open. */
  lemma ParseParam(k: string, v: string)
    requires CleanKey(k) && CleanValue(v)
    ensures Parse(Param(k, v)) == Some(map[Lower(k) := v])
    ensures OpenValue(Param(k, v))
  {
    FeedParam(START, k, v, false);
    FeedParam(START, k, v, true);
    assert "" + k == k;
    assert k[0] in k && k[|k| - 1] in k;
    TrimTight(k);
    TrimTight(v);
  }

  /** A value in double quotes, with a backslash before every quote and backslash inside. */
  function Quoted(v: string): string {
    ['"'] + (Escaped(v) + ['"'])
  }

  function Escaped(v: string): string {
    if v == "" then ""
    else (if v[0] == '"' || v[0] == '\\' then ['\\', v[0]] else [v[0]]) + Escaped(v[1..])
  }

  lemma {:induction false} FeedEscaped(s: Scan, v: string)
    requires s.inValue && s.inQuote && !s.escaped
    ensures Feed(s, Escaped(v), true) == Some(s.(value := s.value + v))
    decreases |v|
  {
    if v == "" {
      assert s.value + v == s.value;
    } else {
      var t := s.(value := s.value + [v[0]]);
      FeedEscapedChar(s, v[0]);
      FeedEscaped(t, v[1..]);
      var first := if v[0] == '"' || v[0] == '\\' then ['\\', v[0]] else [v[0]];
      FeedConcat(s, first, Escaped(v[1..]), true);
      assert s.value + [v[0]] + v[1..] == s.value + v;
    }
  }

  lemma FeedEscapedChar(s: Scan, c: char)
    requires s.inValue && s.inQuote && !s.escaped
    ensures Feed(s, if c == '"' || c == '\\' then ['\\', c] else [c], true) == Some(s.(value := s.value + [c]))
  {
    if c == '"' || c == '\\' {
      var t := Next(s, '\\', false).value;
      assert ['\\', c][1..] == [c];
      assert Feed(t, [c], true) == Feed(Next(t, c, false).value, "", true);
    } else {
      assert Feed(s, [c], true) == Feed(Next(s, c, false).value, "", true);
    }
  }

  /** Every value can be written so that the parser reads it back, up to surrounding blanks. */
  lemma EveryValueCanBeWritten(k: string, v: string)
    requires CleanKey(k)
    ensures Parse(Param(k, Quoted(v))) == Some(map[Lower(k) := Trim(v)])
    ensures OpenValue(Param(k, Quoted(v)))
  {
    FeedQuoted(k, v, false);
    FeedQuoted(k, v, true);
    assert k[0] in k && k[|k| - 1] in k;
    TrimTight(k);
  }

  lemma FeedQuoted(k: string, v: string, more: bool)
    requires CleanKey(k)
    ensures Feed(START, Param(k, Quoted(v)), more) == Some(START.(key := k, value := v, inValue := true))
  {
    var inside := START.(key := k, inValue := true);
    FeedParam(START, k, "", true);
    assert Param(k, "") + Quoted(v) == Param(k, Quoted(v)) && "" + k == k;
    FeedConcat(START, Param(k, ""), Quoted(v), more);
    var s := inside.(inQuote := true);
    var rest := Escaped(v) + ['"'];
    assert Quoted(v)[1..] == rest && Quoted(v)[0] == '"' && rest != "";
    assert Next(inside, '"', false) == Some(s);
    FeedConcat(s, Escaped(v), ['"'], more);
    FeedEscaped(s, v);
    assert "" + v == v;
    var t := s.(value := v);
    assert Next(t, '"', !more) == Some(t.(inQuote := false));
    assert ['"'][1..] == "" && Feed(t, ['"'], more) == Feed(t.(inQuote := false), "", more);
  }

  lemma {:induction false} FeedBlank(text: string, more: bool)
    requires Blank(text)
    ensures Feed(START, text, more) == Some(START)
  {
    if text == "" {
    } else {
      assert text[0] in text;
      FeedBlank(text[1..], more);
    }
  }

  // ----- the appenders --------------------------------------------------------------------

  /** What the four appenders share once they have something to append. */
  function Append(base: string, k: string, v: string): string {
    if Trim(base) == "" then Param(k, v) else base + ";" + Param(k, v)
  }

  /** A base an appender can add to: blank, or ending in an open value. */
  predicate Appendable(base: string) {
    Blank(base) || OpenValue(base)
  }

  /** Appending to such a base sets exactly the one key and leaves the result fit for the next. */
  lemma AppendSets(base: string, k: string, v: string)
    requires Appendable(base) && CleanKey(k) && CleanValue(v)
    ensures Appendable(Append(base, k, v))
    ensures Parse(base).Some? && Parse(Append(base, k, v)) == Some(Parse(base).value[Lower(k) := v])
  {
    TrimBlank(base);
    ParseParam(k, v);
    if Blank(base) {
      FeedBlank(base, false);
      assert Parse(base) == Some(map[]);
    } else {
      ParseComposes(base, Param(k, v));
      assert Parse(base).value + map[Lower(k) := v] == Parse(base).value[Lower(k) := v];
      AppendStaysOpen(base, k, v);
    }
  }

  lemma AppendStaysOpen(base: string, k: string, v: string)
    requires OpenValue(base) && CleanKey(k) && CleanValue(v)
    ensures OpenValue(base + ";" + Param(k, v))
  {
    var open := Feed(START, base, true).value;
    var p := Param(k, v);
    assert base + ";" + p == base + (";" + p);
    FeedConcat(START, base, ";" + p, true);
    assert (";" + p)[1..] == p;
    FeedParam(Scan(Flush(open), "", "", false, false, false), k, v, true);
  }

  /** The pair the parser is reading when the text ends. */
  function LastPair(text: string): Option<(string, string)> {
    match Feed(START, text, false)
    case None => None
    case Some(s) => Some((s.key, s.value))
  }

  /**
   For any base the parser accepts so far: the appended parameter is read as a parameter of its own
   exactly when the base ends in an open value, or in a backslash where a key would begin.
   */
  lemma AppendedIsReadIff(base: string, k: string, v: string)
    requires Feed(START, base, true).Some? && CleanKey(k) && CleanValue(v)
    ensures LastPair(base + ";" + Param(k, v)).Some?
    ensures LastPair(base + ";" + Param(k, v)) == Some((k, v)) <==>
      OpenValue(base) || var s := Feed(START, base, true).value; s.escaped && !s.inValue && s.key == ""
  {
    var s := Feed(START, base, true).value;
    var p := Param(k, v);
    assert base + ";" + p == base + (";" + p);
    FeedConcat(START, base, ";" + p, false);
    assert (";" + p)[1..] == p && p != "";
    ValueMeansOpen(START, base);
    ParamAfter(Next(s, ';', false).value, k, v);
  }

  /** A clean parameter is read as one exactly where a key begins. */
  lemma ParamAfter(t: Scan, k: string, v: string)
    requires CleanKey(k) && CleanValue(v)
    requires !t.escaped && (!t.inValue ==> !t.inQuote && t.value == "")
    ensures var end := Feed(t, Param(k, v), false);
      end.Some? && ((end.value.key, end.value.value) == (k, v) <==> !t.inValue && t.key == "")
  {
    if t.inValue {
      FeedParamInValue(t, k, v);
      assert |t.value + Param(k, v)| > |v|;
    } else {
      FeedParam(t, k, v, false);
      assert t.key != "" ==> |t.key + k| > |k|;
      assert t.key == "" ==> t.key + k == k;
    }
  }

  lemma FeedParamInValue(s: Scan, k: string, v: string)
    requires s.inValue && !s.escaped && CleanKey(k) && CleanValue(v)
    ensures Feed(s, Param(k, v), false) == Some(s.(value := s.value + Param(k, v)))
  {
    assert forall c :: c in Param(k, v) ==> c in k || c == '=' || c in v;
    FeedValue(s, Param(k, v), false);
  }

  /** Outside a value nothing is in quotes and no value has been collected. */
  lemma {:induction false} ValueMeansOpen(s: Scan, text: string)
    requires !s.inValue ==> !s.inQuote && s.value == ""
    requires Feed(s, text, true).Some?
    ensures var t := Feed(s, text, true).value; !t.inValue ==> !t.inQuote && t.value == ""
    decreases |text|
  {
    if text == "" {
    } else {
      ValueMeansOpen(Next(s, text[0], false).value, text[1..]);
    }
  }

  lemma ParseSemicolonParam(k: string, v: string)
    requires CleanKey(k) && CleanValue(v)
    ensures Parse(";" + Param(k, v)) == Some(map[Lower([';'] + k) := v])
  {
    var p := Param(k, v);
    assert (";" + p)[1..] == p && p != "";
    assert "" + [';'] == [';'];
    FeedParam(START.(key := [';']), k, v, false);
    assert k[|k| - 1] in k;
    TrimTight([';'] + k);
    TrimTight(v);
  }

  /** A base that ends in `;` leaves the appended key with the `;` in front of it. */
  lemma SemicolonBaseMisreads(s: string, k: string, v: string)
    requires OpenValue(s) && CleanKey(k) && CleanValue(v)
    ensures Parse(s + ";").Some?
    ensures Parse(s + ";" + ";" + Param(k, v)) == Some(Parse(s + ";").value[Lower([';'] + k) := v])
  {
    SemicolonChangesNothing(s);
    assert s + ";" + ";" + Param(k, v) == s + ";" + (";" + Param(k, v));
    ParseComposes(s, ";" + Param(k, v));
    ParseSemicolonParam(k, v);
    Override(Parse(s).value, Lower([';'] + k), v);
  }

  lemma SemicolonChangesNothing(s: string)
    requires OpenValue(s)
    ensures Parse(s).Some? && Parse(s + ";") == Parse(s)
  {
    assert s + ";" + "" == s + ";";
    ParseComposes(s, "");
    var base := Parse(s).value;
    assert base + map[] == base;
  }

  lemma Override(base: map<string, string>, k: string, v: string)
    ensures base + map[k := v] == base[k := v]
  {}

  /** The connection settings the appenders look at; `base` is the string or the filled-in template. */
  datatype Settings = Settings(base: string, sessionTimeout: int, timeZone: string, charSet: string, queryTimeout: int)

  /** A number that is not positive is not set. */
  function Number(n: int): string {
    if n > 0 then Decimal(n) else ""
  }

  function AppendNumber(base: string, k: string, n: int): string {
    if n <= 0 then base else Append(base, k, Decimal(n))
  }

  function AppendText(base: string, k: string, v: string): string {
    if v == "" then base else Append(base, k, v)
  }

  function WithSettings(c: Settings): string {
    var s1 := AppendNumber(c.base, "SESSIONTIMEOUT", c.sessionTimeout);
    var s2 := AppendText(s1, "TIMEZONE", c.timeZone);
    var s3 := AppendText(s2, "CHARSET", c.charSet);
    AppendNumber(s3, "QUERYTIMEOUT", c.queryTimeout)
  }

  /** A pair set over others; the empty value sets nothing. */
  function SetText(m: map<string, string>, k: string, v: string): map<string, string> {
    if v == "" then m else m[k := v]
  }

  lemma AppendNumberSets(base: string, k: string, n: int)
    requires Appendable(base) && CleanKey(k)
    ensures Appendable(AppendNumber(base, k, n)) && Parse(base).Some?
    ensures Parse(AppendNumber(base, k, n)) == Some(SetText(Parse(base).value, Lower(k), Number(n)))
  {
    AppendableParses(base);
    if n > 0 {
      var d := Decimal(n);
      assert d[0] in d && d[|d| - 1] in d;
      AppendSets(base, k, d);
    }
  }

  lemma AppendTextSets(base: string, k: string, v: string)
    requires Appendable(base) && CleanKey(k) && CleanValue(v)
    ensures Appendable(AppendText(base, k, v)) && Parse(base).Some?
    ensures Parse(AppendText(base, k, v)) == Some(SetText(Parse(base).value, Lower(k), v))
  {
    AppendableParses(base);
    if v != "" {
      AppendSets(base, k, v);
    }
  }

  lemma AppendableParses(base: string)
    requires Appendable(base)
    ensures Parse(base).Some?
  {
    if Blank(base) {
      FeedBlank(base, false);
    } else {
      ParseOpen(base);
    }
  }

  lemma SettingKeysAreClean()
    ensures CleanKey("SESSIONTIMEOUT") && CleanKey("TIMEZONE") && CleanKey("CHARSET") && CleanKey("QUERYTIMEOUT")
  {
    CapitalsAreClean("SESSIONTIMEOUT");
    CapitalsAreClean("TIMEZONE");
    CapitalsAreClean("CHARSET");
    CapitalsAreClean("QUERYTIMEOUT");
  }

  /** The pairs of the base, but for the settings given, each under its own key. */
  ghost predicate WithThose(m: map<string, string>, base: map<string, string>, c: Settings) {
    && (forall k :: k !in {"sessiontimeout", "timezone", "charset", "querytimeout"} ==>
          (k in m <==> k in base) && (k in m ==> m[k] == base[k]))
    && IsSet(m, base, "sessiontimeout", if c.sessionTimeout > 0 then Decimal(c.sessionTimeout) else "")
    && IsSet(m, base, "timezone", c.timeZone)
    && IsSet(m, base, "charset", c.charSet)
    && IsSet(m, base, "querytimeout", if c.queryTimeout > 0 then Decimal(c.queryTimeout) else "")
  }

  predicate IsSet(m: map<string, string>, base: map<string, string>, k: string, v: string) {
    if v != "" then k in m && m[k] == v
    else (k in m <==> k in base) && (k in m ==> m[k] == base[k])
  }

  lemma SettingKeysInLowerCase()
    ensures Lower("SESSIONTIMEOUT") == "sessiontimeout" && Lower("TIMEZONE") == "timezone"
    ensures Lower("CHARSET") == "charset" && Lower("QUERYTIMEOUT") == "querytimeout"
  {}

  /** The four appends in a row set exactly the keys of the settings given and keep every other pair. */
  lemma SettingsAreSet(c: Settings)
    requires Appendable(c.base) && CleanValue(c.timeZone) && CleanValue(c.charSet)
    ensures Parse(c.base).Some? && Parse(WithSettings(c)).Some?
    ensures WithThose(Parse(WithSettings(c)).value, Parse(c.base).value, c)
  {
    SettingKeysAreClean();
    SettingKeysInLowerCase();
    AppendNumberSets(c.base, "SESSIONTIMEOUT", c.sessionTimeout);
    var s1 := AppendNumber(c.base, "SESSIONTIMEOUT", c.sessionTimeout);
    AppendTextSets(s1, "TIMEZONE", c.timeZone);
    var s2 := AppendText(s1, "TIMEZONE", c.timeZone);
    AppendTextSets(s2, "CHARSET", c.charSet);
    AppendNumberSets(AppendText(s2, "CHARSET", c.charSet), "QUERYTIMEOUT", c.queryTimeout);
    FourSet(Parse(c.base).value, c);
  }

  lemma FourSet(base: map<string, string>, c: Settings)
    ensures var m1 := SetText(base, "sessiontimeout", Number(c.sessionTimeout));
      var m2 := SetText(m1, "timezone", c.timeZone);
      var m3 := SetText(m2, "charset", c.charSet);
      WithThose(SetText(m3, "querytimeout", Number(c.queryTimeout)), base, c)
  {}

  /** buildConnectionString: the configured string, else the filled-in template, else an error. */
  function Final(connectionString: string, template: string, filledIn: string, c: Settings): Option<string> {
    if connectionString != "" then Some(WithSettings(c.(base := connectionString)))
    else if template != "" then Some(WithSettings(c.(base := filledIn)))
    else None
  }

  /** It fails exactly with neither, and otherwise its result is read as the base with the settings set. */
  lemma FinalIsRead(connectionString: string, template: string, filledIn: string, c: Settings)
    requires CleanValue(c.timeZone) && CleanValue(c.charSet)
    requires Appendable(if connectionString != "" then connectionString else filledIn)
    ensures var base := if connectionString != "" then connectionString else filledIn;
      var final := Final(connectionString, template, filledIn, c);
      && (final.None? <==> connectionString == "" && template == "")
      && Parse(base).Some?
      && (final.Some? ==> Parse(final.value).Some? && WithThose(Parse(final.value).value, Parse(base).value, c))
  {
    SettingsAreSet(c.(base := if connectionString != "" then connectionString else filledIn));
  }

  // ----- the builder ----------------------------------------------------------------------

  datatype Config = Config(
    dsn: string, server: string, servers: string, port: int, database: string, username: string, password: string,
    connectionTimeout: int, queryTimeout: int, sessionMode: string, account: string, sslMode: string, sslSecure: bool,
    sslCert: string, sslKey: string, sslRootCert: string, sslKeyPassword: string, sslCipherSuites: string,
    sslVersion: string)

  datatype Field = Field(key: string, value: string)

  /** Every field in the builder's order; the empty value is a field that is not set. */
  function AllFields(c: Config): seq<Field> {
    [Field("DSN", c.dsn), Field("SERVER", c.server), Field("SERVERS", c.servers), Field("PORT", Number(c.port)),
     Field("DATABASE", c.database), Field("UID", c.username), Field("PWD", c.password),
     Field("CONNTIMEOUT", Number(c.connectionTimeout)), Field("QUERYTIMEOUT", Number(c.queryTimeout)),
     Field("SESSIONMODE", c.sessionMode), Field("ACCOUNT", c.account), Field("SSLMODE", c.sslMode),
     Field("SSL", if c.sslSecure then "1" else ""), Field("SSLCERT", c.sslCert), Field("SSLKEY", c.sslKey),
     Field("SSLROOTCERT", c.sslRootCert), Field("SSLKEYPASSWORD", c.sslKeyPassword),
     Field("SSLCIPHERSUITE", c.sslCipherSuites), Field("SSLVERSION", c.sslVersion)]
  }

  function SetFields(fs: seq<Field>): seq<Field> {
    if fs == [] then []
    else
      var rest := SetFields(fs[..|fs| - 1]);
      if fs[|fs| - 1].value != "" then rest + [fs[|fs| - 1]] else rest
  }

  /** strings.Join of the parameters with `;`. */
  function JoinParams(fs: seq<Field>): string {
    if fs == [] then ""
    else
      var last := Param(fs[|fs| - 1].key, fs[|fs| - 1].value);
      if |fs| == 1 then last else JoinParams(fs[..|fs| - 1]) + ";" + last
  }

  function Build(c: Config): string {
    JoinParams(SetFields(AllFields(c)))
  }

  function FieldMap(fs: seq<Field>): map<string, string> {
    if fs == [] then map[] else FieldMap(fs[..|fs| - 1])[Lower(fs[|fs| - 1].key) := fs[|fs| - 1].value]
  }

  predicate CleanFields(fs: seq<Field>) {
    forall f :: f in fs ==> CleanKey(f.key) && CleanValue(f.value)
  }

  lemma JoinStep(base: string, m: map<string, string>, f: Field)
    requires OpenValue(base) && Parse(base) == Some(m) && CleanKey(f.key) && CleanValue(f.value)
    ensures Parse(base + ";" + Param(f.key, f.value)) == Some(m[Lower(f.key) := f.value])
    ensures OpenValue(base + ";" + Param(f.key, f.value))
  {
    ParseComposes(base, Param(f.key, f.value));
    ParseParam(f.key, f.value);
    AppendStaysOpen(base, f.key, f.value);
    assert m + map[Lower(f.key) := f.value] == m[Lower(f.key) := f.value];
  }

  /** Joined clean parameters parse to one pair each, a later one overriding an earlier one. */
  lemma {:induction false} ParseJoined(fs: seq<Field>)
    requires CleanFields(fs)
    ensures Parse(JoinParams(fs)) == Some(FieldMap(fs))
    ensures fs != [] ==> OpenValue(JoinParams(fs))
  {
    if fs == [] {
      assert Parse("") == Some(map[]);
    } else {
      var init, f := fs[..|fs| - 1], fs[|fs| - 1];
      assert f in fs;
      ParseJoined(init);
      if |fs| == 1 {
        ParseParam(f.key, f.value);
        assert FieldMap(init) == map[];
      } else {
        JoinStep(JoinParams(init), FieldMap(init), f);
      }
    }
  }

  lemma {:induction false} SetFieldsAre(fs: seq<Field>)
    ensures forall f :: f in SetFields(fs) <==> f in fs && f.value != ""
  {
    if fs == [] {
    } else {
      SetFieldsAre(fs[..|fs| - 1]);
      assert fs == fs[..|fs| - 1] + [fs[|fs| - 1]];
    }
  }

  /** No two fields have the same key in lower case. */
  ghost predicate DistinctKeys(fs: seq<Field>) {
    forall i, j :: 0 <= i < j < |fs| ==> Lower(fs[i].key) != Lower(fs[j].key)
  }

  /** The map of the set fields holds no key but theirs. */
  lemma {:induction false} FieldMapHasOnly(fs: seq<Field>, k: string)
    requires k in FieldMap(SetFields(fs))
    ensures exists i :: 0 <= i < |fs| && fs[i].value != "" && Lower(fs[i].key) == k
  {
    var init, g := fs[..|fs| - 1], fs[|fs| - 1];
    var rest := SetFields(init);
    assert g.value != "" ==> (rest + [g])[..|rest|] == rest;
    if k in FieldMap(rest) {
      FieldMapHasOnly(init, k);
      var i :| 0 <= i < |init| && init[i].value != "" && Lower(init[i].key) == k;
      assert fs[i] == init[i];
    }
  }

  /** With distinct keys every set field keeps its value. */
  lemma {:induction false} FieldMapHas(fs: seq<Field>, i: nat)
    requires DistinctKeys(fs) && i < |fs| && fs[i].value != ""
    ensures var m := FieldMap(SetFields(fs)); Lower(fs[i].key) in m && m[Lower(fs[i].key)] == fs[i].value
  {
    var init, g := fs[..|fs| - 1], fs[|fs| - 1];
    var rest := SetFields(init);
    assert g.value != "" ==> (rest + [g])[..|rest|] == rest;
    if i < |init| {
      assert fs[i] == init[i];
      FieldMapHas(init, i);
    }
  }

  /** Three characters' worth of each lower-case key tell all of them apart. */
  function Code(k: string): (int, char, char)
    requires |k| >= 3
  {
    (|k|, LowerChar(k[1]), LowerChar(k[|k| - 1]))
  }

  lemma SameLowerSameCode(a: string, b: string)
    requires |a| >= 3 && |b| >= 3 && Lower(a) == Lower(b)
    ensures Code(a) == Code(b)
  {
    assert Lower(a)[1] == Lower(b)[1] && Lower(a)[|a| - 1] == Lower(b)[|b| - 1];
  }

  lemma AllKeysDistinct(c: Config)
    ensures DistinctKeys(AllFields(c))
  {
    var fs := AllFields(c);
    forall i, j | 0 <= i < j < |fs| ensures Lower(fs[i].key) != Lower(fs[j].key) {
      assert Code(fs[i].key) != Code(fs[j].key);
      if Lower(fs[i].key) == Lower(fs[j].key) {
        SameLowerSameCode(fs[i].key, fs[j].key);
      }
    }
  }

  lemma ConnectionKeysAreClean()
    ensures CleanKey("DSN") && CleanKey("SERVER") && CleanKey("SERVERS") && CleanKey("PORT") && CleanKey("DATABASE")
    ensures CleanKey("UID") && CleanKey("PWD") && CleanKey("CONNTIMEOUT") && CleanKey("QUERYTIMEOUT")
    ensures CleanKey("SESSIONMODE")
  {
    CapitalsAreClean("DSN");
    CapitalsAreClean("SERVER");
    CapitalsAreClean("SERVERS");
    CapitalsAreClean("PORT");
    CapitalsAreClean("DATABASE");
    CapitalsAreClean("UID");
    CapitalsAreClean("PWD");
    CapitalsAreClean("CONNTIMEOUT");
    CapitalsAreClean("QUERYTIMEOUT");
    CapitalsAreClean("SESSIONMODE");
  }

  lemma SSLKeysAreClean()
    ensures CleanKey("ACCOUNT") && CleanKey("SSLMODE") && CleanKey("SSL") && CleanKey("SSLCERT") && CleanKey("SSLKEY")
    ensures CleanKey("SSLROOTCERT") && CleanKey("SSLKEYPASSWORD") && CleanKey("SSLCIPHERSUITE")
    ensures CleanKey("SSLVERSION")
  {
    CapitalsAreClean("ACCOUNT");
    CapitalsAreClean("SSLMODE");
    CapitalsAreClean("SSL");
    CapitalsAreClean("SSLCERT");
    CapitalsAreClean("SSLKEY");
    CapitalsAreClean("SSLROOTCERT");
    CapitalsAreClean("SSLKEYPASSWORD");
    CapitalsAreClean("SSLCIPHERSUITE");
    CapitalsAreClean("SSLVERSION");
  }

  lemma AllKeysClean(c: Config)
    ensures forall i :: 0 <= i < |AllFields(c)| ==> CleanKey(AllFields(c)[i].key)
  {
    ConnectionKeysAreClean();
    SSLKeysAreClean();
  }

  /** What is parsed from joined fields is exactly the set ones. */
  lemma FieldsRoundTrip(fs: seq<Field>)
    requires CleanFields(fs) && DistinctKeys(fs)
    ensures var r := Parse(JoinParams(SetFields(fs))); r.Some? && Holds(r.value, fs)
  {
    SetFieldsAre(fs);
    ParseJoined(SetFields(fs));
    var m := FieldMap(SetFields(fs));
    forall i | 0 <= i < |fs| && fs[i].value != "" ensures Lower(fs[i].key) in m && m[Lower(fs[i].key)] == fs[i].value {
      FieldMapHas(fs, i);
    }
    forall k | k in m ensures exists i :: 0 <= i < |fs| && fs[i].value != "" && Lower(fs[i].key) == k {
      FieldMapHasOnly(fs, k);
    }
  }

  /** The pairs are the fields with a value, keys in lower case. */
  ghost predicate Holds(m: map<string, string>, fs: seq<Field>) {
    && (forall i :: 0 <= i < |fs| && fs[i].value != "" ==> Lower(fs[i].key) in m && m[Lower(fs[i].key)] == fs[i].value)
    && (forall k :: k in m ==> exists i :: 0 <= i < |fs| && fs[i].value != "" && Lower(fs[i].key) == k)
  }

  /** What a driver is to find under each of its keys; the empty value is a key that is not there. */
  function Meant(c: Config): seq<(string, string)> {
    [("dsn", c.dsn), ("server", c.server), ("servers", c.servers), ("port", if c.port > 0 then Decimal(c.port) else ""),
     ("database", c.database), ("uid", c.username), ("pwd", c.password),
     ("conntimeout", if c.connectionTimeout > 0 then Decimal(c.connectionTimeout) else ""),
     ("querytimeout", if c.queryTimeout > 0 then Decimal(c.queryTimeout) else ""), ("sessionmode", c.sessionMode),
     ("account", c.account), ("sslmode", c.sslMode), ("ssl", if c.sslSecure then "1" else ""), ("sslcert", c.sslCert),
     ("sslkey", c.sslKey), ("sslrootcert", c.sslRootCert), ("sslkeypassword", c.sslKeyPassword),
     ("sslciphersuite", c.sslCipherSuites), ("sslversion", c.sslVersion)]
  }

  lemma ConnectionKeysInLowerCase()
    ensures Lower("DSN") == "dsn" && Lower("SERVER") == "server" && Lower("SERVERS") == "servers"
    ensures Lower("PORT") == "port" && Lower("DATABASE") == "database" && Lower("UID") == "uid" && Lower("PWD") == "pwd"
    ensures Lower("CONNTIMEOUT") == "conntimeout" && Lower("QUERYTIMEOUT") == "querytimeout"
    ensures Lower("SESSIONMODE") == "sessionmode"
  {}

  lemma SSLKeysInLowerCase()
    ensures Lower("ACCOUNT") == "account" && Lower("SSLMODE") == "sslmode" && Lower("SSL") == "ssl"
    ensures Lower("SSLCERT") == "sslcert" && Lower("SSLKEY") == "sslkey" && Lower("SSLROOTCERT") == "sslrootcert"
    ensures Lower("SSLKEYPASSWORD") == "sslkeypassword" && Lower("SSLCIPHERSUITE") == "sslciphersuite"
    ensures Lower("SSLVERSION") == "sslversion"
  {}

  lemma FieldsAreMeant(c: Config)
    ensures |AllFields(c)| == |Meant(c)|
    ensures forall i :: 0 <= i < |Meant(c)| ==> (Lower(AllFields(c)[i].key), AllFields(c)[i].value) == Meant(c)[i]
  {
    ConnectionKeysInLowerCase();
    SSLKeysInLowerCase();
  }

  predicate CleanConfig(c: Config) {
    forall p :: p in Meant(c) ==> CleanValue(p.1)
  }

  lemma AllFieldsClean(c: Config)
    requires CleanConfig(c)
    ensures CleanFields(AllFields(c))
  {
    AllKeysClean(c);
    FieldsAreMeant(c);
    forall f | f in AllFields(c) ensures CleanKey(f.key) && CleanValue(f.value) {
      var i :| 0 <= i < |AllFields(c)| && AllFields(c)[i] == f;
      assert Meant(c)[i] in Meant(c);
    }
  }

  /** Round trip: what is parsed from a built string is each configured value under its own key, and nothing else. */
  lemma BuildRoundTrip(c: Config)
    requires CleanConfig(c)
    ensures Parse(Build(c)).Some?
    ensures var m, pairs := Parse(Build(c)).value, Meant(c);
      && (forall i :: 0 <= i < |pairs| && pairs[i].1 != "" ==> pairs[i].0 in m && m[pairs[i].0] == pairs[i].1)
      && (forall k :: k in m ==> exists i :: 0 <= i < |pairs| && pairs[i] == (k, m[k]) && m[k] != "")
  {
    var fs := AllFields(c);
    AllFieldsClean(c);
    AllKeysDistinct(c);
    FieldsRoundTrip(fs);
    FieldsAreMeant(c);
    MeantIsHeld(Parse(Build(c)).value, fs, Meant(c));
  }

  lemma MeantIsHeld(m: map<string, string>, fs: seq<Field>, pairs: seq<(string, string)>)
    requires Holds(m, fs) && |fs| == |pairs|
    requires forall i :: 0 <= i < |pairs| ==> (Lower(fs[i].key), fs[i].value) == pairs[i]
    ensures forall i :: 0 <= i < |pairs| && pairs[i].1 != "" ==> pairs[i].0 in m && m[pairs[i].0] == pairs[i].1
    ensures forall k :: k in m ==> exists i :: 0 <= i < |pairs| && pairs[i] == (k, m[k]) && m[k] != ""
  {
    forall k | k in m ensures exists i :: 0 <= i < |pairs| && pairs[i] == (k, m[k]) && m[k] != "" {
      var i :| 0 <= i < |fs| && fs[i].value != "" && Lower(fs[i].key) == k;
      assert pairs[i] == (k, m[k]);
    }
  }
}
