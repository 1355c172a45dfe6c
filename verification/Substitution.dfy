/**
 Filling in the revocation template: a replacement pass over bytes, repeated until a pass changes
 nothing.
 */
module Substitution {
  import opened Common

  newtype byte = x: int | 0 <= x < 256

  type Bytes = seq<byte>

  const BRACE: byte := 123

  /** The bytes of the two placeholders, username and password, each in double braces. */
  const USERNAME: Bytes := [123, 123, 117, 115, 101, 114, 110, 97, 109, 101, 125, 125]
  const PASSWORD: Bytes := [123, 123, 112, 97, 115, 115, 119, 111, 114, 100, 125, 125]

  predicate Ascii(s: Bytes) {
    forall i :: 0 <= i < |s| ==> s[i] < 128
  }

  predicate Placeholder(mark: Bytes) {
    mark != [] && Ascii(mark) && BRACE in mark
  }

  ghost predicate Occurs(s: Bytes, mark: Bytes) {
    exists i :: 0 <= i <= |s| && mark <= s[i..]
  }

  /** Go's `string(b)` for a byte b: the UTF-8 form of the character with that number. */
  function Utf8(b: byte): Bytes {
    if b < 128 then [b] else if b < 192 then [194, b] else [195, b - 64]
  }

  /** One pass of the source's own replacement. */
  function Pass(s: Bytes, mark: Bytes, value: Bytes): Bytes
    requires mark != []
  {
    if s == [] then []
    else if mark <= s then value + Pass(s[|mark|..], mark, value)
    else Utf8(s[0]) + Pass(s[1..], mark, value)
  }

  /** strings.ReplaceAll, which creation uses on its templates. */
  function ReplaceAll(s: Bytes, mark: Bytes, value: Bytes): Bytes
    requires mark != []
  {
    if s == [] then []
    else if mark <= s then value + ReplaceAll(s[|mark|..], mark, value)
    else [s[0]] + ReplaceAll(s[1..], mark, value)
  }

  /** The placeholders, letter by letter. */
  lemma PlaceholdersAre()
    ensures |USERNAME| == |"{{username}}"| && |PASSWORD| == |"{{password}}"|
    ensures forall i :: 0 <= i < |USERNAME| ==> USERNAME[i] as int == "{{username}}"[i] as int
    ensures forall i :: 0 <= i < |PASSWORD| ==> PASSWORD[i] as int == "{{password}}"[i] as int
  {}

  /** A byte outside ASCII becomes the two bytes that UTF-8 decodes to its number. */
  lemma Utf8Decodes(b: byte)
    ensures var u := Utf8(b);
      if b < 128 then u == [b]
      else
        && |u| == 2 && u[0] in {194, 195} && 128 <= u[1] < 192
        && (u[0] as int - 192) * 64 + (u[1] as int - 128) == b as int
  {}

  /** What a pass makes of text without a placeholder. */
  function Recoded(s: Bytes): Bytes {
    if s == [] then [] else Utf8(s[0]) + Recoded(s[1..])
  }

  /** The placeholder is found first behind `a`. */
  ghost predicate FirstAfter(a: Bytes, mark: Bytes, b: Bytes) {
    forall i :: 0 <= i < |a| ==> !(mark <= (a + mark + b)[i..])
  }

  /** A pass puts the value where the placeholder is found first, and goes on behind it. */
  lemma {:induction false} FirstIsReplaced(a: Bytes, mark: Bytes, b: Bytes, value: Bytes)
    requires mark != [] && FirstAfter(a, mark, b)
    ensures Pass(a + mark + b, mark, value) == Recoded(a) + value + Pass(b, mark, value)
    ensures ReplaceAll(a + mark + b, mark, value) == a + value + ReplaceAll(b, mark, value)
  {
    if a == [] {
      assert [] + mark + b == mark + b && (mark + b)[|mark|..] == b;
    } else {
      FirstInRest(a, mark, b);
      FirstIsReplaced(a[1..], mark, b, value);
      Regroup(Utf8(a[0]), Recoded(a[1..]), value);
      Regroup(Utf8(a[0]), Recoded(a[1..]) + value, Pass(b, mark, value));
      Regroup([a[0]], a[1..], value);
      Regroup([a[0]], a[1..] + value, ReplaceAll(b, mark, value));
      assert [a[0]] + a[1..] == a;
    }
  }

  lemma FirstInRest(a: Bytes, mark: Bytes, b: Bytes)
    requires a != [] && FirstAfter(a, mark, b)
    ensures var s := a + mark + b; s[0] == a[0] && s[1..] == a[1..] + mark + b && !(mark <= s)
    ensures FirstAfter(a[1..], mark, b)
  {
    var s := a + mark + b;
    assert s[0..] == s && s[1..] == a[1..] + mark + b;
    forall i | 0 <= i < |a[1..]| ensures !(mark <= (a[1..] + mark + b)[i..]) {
      assert s[1..][i..] == s[i + 1..];
    }
  }

  /** A pass over text without a placeholder replaces nothing. */
  lemma {:induction false} NothingIsReplaced(s: Bytes, mark: Bytes, value: Bytes)
    requires mark != [] && !Occurs(s, mark)
    ensures Pass(s, mark, value) == Recoded(s) && ReplaceAll(s, mark, value) == s
  {
    if s == [] {
    } else {
      assert s[0..] == s;
      forall i | 0 <= i <= |s[1..]| ensures !(mark <= s[1..][i..]) {
        assert s[1..][i..] == s[i + 1..];
      }
      NothingIsReplaced(s[1..], mark, value);
      assert s == [s[0]] + s[1..];
    }
  }

  /** How many placeholders a pass replaces. */
  function Matches(s: Bytes, mark: Bytes): nat
    requires mark != []
  {
    if s == [] then 0
    else if mark <= s then 1 + Matches(s[|mark|..], mark)
    else Matches(s[1..], mark)
  }

  /** On ASCII text the source's pass and the library's agree. */
  lemma {:induction false} PassIsReplaceAll(s: Bytes, mark: Bytes, value: Bytes)
    requires mark != [] && Ascii(s)
    ensures Pass(s, mark, value) == ReplaceAll(s, mark, value)
    decreases |s|
  {
    if s == [] {
    } else {
      if mark <= s {
        PassIsReplaceAll(s[|mark|..], mark, value);
      } else {
        PassIsReplaceAll(s[1..], mark, value);
      }
    }
  }

  /** A pass replaces something exactly when the placeholder occurs. */
  lemma {:induction false} MatchesIff(s: Bytes, mark: Bytes)
    requires mark != []
    ensures Matches(s, mark) > 0 <==> Occurs(s, mark)
    decreases |s|
  {
    if mark <= s {
      assert mark <= s[0..];
    } else if s != [] {
      MatchesIff(s[1..], mark);
      if i :| 0 <= i <= |s| && mark <= s[i..] {
        assert s[0..] == s;
        assert s[1..][i - 1..] == s[i..];
      }
      if i :| 0 <= i <= |s[1..]| && mark <= s[1..][i..] {
        assert s[i + 1..] == s[1..][i..];
      }
    }
  }

  function Braces(s: Bytes): nat {
    if s == [] then 0 else (if s[0] == BRACE then 1 else 0) + Braces(s[1..])
  }

  /** The bytes outside ASCII. */
  function Highs(s: Bytes): nat {
    if s == [] then 0 else (if s[0] >= 128 then 1 else 0) + Highs(s[1..])
  }

  lemma {:induction false} CountsConcat(a: Bytes, b: Bytes)
    ensures Braces(a + b) == Braces(a) + Braces(b)
    ensures Highs(a + b) == Highs(a) + Highs(b)
  {
    if a == [] {
      assert a + b == b;
    } else {
      CountsConcat(a[1..], b);
      assert (a + b)[1..] == a[1..] + b;
    }
  }

  lemma {:induction false} CountsZero(s: Bytes)
    ensures Braces(s) == 0 <==> BRACE !in s
    ensures Highs(s) == 0 <==> Ascii(s)
  {
    if s == [] {
    } else {
      CountsZero(s[1..]);
      assert s == [s[0]] + s[1..];
      assert forall i :: 0 < i < |s| ==> s[i] == s[1..][i - 1];
    }
  }

  lemma CountsUtf8(b: byte)
    ensures Braces(Utf8(b)) == (if b == BRACE then 1 else 0)
    ensures Highs(Utf8(b)) == (if b >= 128 then 2 else 0)
  {
    if b < 128 {
      CountsOne(b);
    } else {
      var first, second := Utf8(b)[0], Utf8(b)[1];
      assert Utf8(b) == [first] + [second];
      CountsConcat([first], [second]);
      CountsOne(first);
      CountsOne(second);
    }
  }

  lemma CountsOne(b: byte)
    ensures Braces([b]) == (if b == BRACE then 1 else 0)
    ensures Highs([b]) == (if b >= 128 then 1 else 0)
  {
    assert [b][1..] == [] && Braces([]) == 0 && Highs([]) == 0;
  }

  /**
   What one pass does to the two counts: each placeholder takes its braces away and brings those
   of the value, and each byte outside ASCII becomes two.
   */
  lemma PassCounts(s: Bytes, mark: Bytes, value: Bytes)
    requires mark != [] && Ascii(mark)
    ensures Braces(Pass(s, mark, value)) + Matches(s, mark) * Braces(mark)
         == Braces(s) + Matches(s, mark) * Braces(value)
    ensures Highs(Pass(s, mark, value)) == 2 * Highs(s) + Matches(s, mark) * Highs(value)
  {
    PassBraces(s, mark, value);
    PassHighs(s, mark, value);
    ProductIsTimes(Matches(s, mark), Braces(mark));
    ProductIsTimes(Matches(s, mark), Braces(value));
    ProductIsTimes(Matches(s, mark), Highs(value));
  }

  /** A pass over a placeholder, and over any other first byte. */
  lemma PassFirst(s: Bytes, mark: Bytes, value: Bytes)
    requires mark != [] && s != []
    ensures mark <= s ==>
      var rest := s[|mark|..];
      && s == mark + rest
      && Pass(s, mark, value) == value + Pass(rest, mark, value) && Matches(s, mark) == Matches(rest, mark) + 1
    ensures !(mark <= s) ==>
      && Pass(s, mark, value) == Utf8(s[0]) + Pass(s[1..], mark, value) && Matches(s, mark) == Matches(s[1..], mark)
  {}

  lemma {:induction false} PassBraces(s: Bytes, mark: Bytes, value: Bytes)
    requires mark != []
    ensures Braces(Pass(s, mark, value)) + Times(Matches(s, mark), Braces(mark))
         == Braces(s) + Times(Matches(s, mark), Braces(value))
    decreases |s|
  {
    if s == [] {
    } else {
      if mark <= s {
        var rest := s[|mark|..];
        PassBraces(rest, mark, value);
        PassFirst(s, mark, value);
        CountsConcat(mark, rest);
        CountsConcat(value, Pass(rest, mark, value));
      } else {
        PassBraces(s[1..], mark, value);
        PassFirst(s, mark, value);
        CountsUtf8(s[0]);
        CountsConcat(Utf8(s[0]), Pass(s[1..], mark, value));
      }
    }
  }

  lemma {:induction false} PassHighs(s: Bytes, mark: Bytes, value: Bytes)
    requires mark != [] && Ascii(mark)
    ensures Highs(Pass(s, mark, value)) == 2 * Highs(s) + Times(Matches(s, mark), Highs(value))
    decreases |s|
  {
    if s == [] {
    } else {
      if mark <= s {
        var rest := s[|mark|..];
        PassHighs(rest, mark, value);
        PassFirst(s, mark, value);
        CountsConcat(mark, rest);
        CountsConcat(value, Pass(rest, mark, value));
        CountsZero(mark);
      } else {
        PassHighs(s[1..], mark, value);
        PassFirst(s, mark, value);
        CountsUtf8(s[0]);
        CountsConcat(Utf8(s[0]), Pass(s[1..], mark, value));
      }
    }
  }

  lemma {:induction false} NothingToReplace(s: Bytes, mark: Bytes, value: Bytes)
    requires mark != [] && Ascii(s) && Matches(s, mark) == 0
    ensures Pass(s, mark, value) == s
  {
    if s == [] {
    } else {
      NothingToReplace(s[1..], mark, value);
      assert s == [s[0]] + s[1..];
    }
  }

  /** A pass that changes ASCII text strictly lowers the number of braces, even where it forms a new placeholder. */
  lemma ChangingPassLosesBraces(s: Bytes, mark: Bytes, value: Bytes)
    requires Placeholder(mark) && BRACE !in value && Ascii(s)
    ensures Pass(s, mark, value) != s <==> Occurs(s, mark)
    ensures Occurs(s, mark) ==> Braces(Pass(s, mark, value)) < Braces(s)
  {
    MatchesIff(s, mark);
    PassCounts(s, mark, value);
    CountsZero(value);
    CountsZero(mark);
    var m := Matches(s, mark);
    if m > 0 {
      Positive(m, Braces(mark));
    } else {
      NothingToReplace(s, mark, value);
    }
  }

  /** The text after `n` passes. */
  function After(n: nat, s: Bytes, mark: Bytes, value: Bytes): Bytes
    requires mark != []
  {
    if n == 0 then s else After(n - 1, Pass(s, mark, value), mark, value)
  }

  lemma {:induction false} AfterNext(n: nat, s: Bytes, mark: Bytes, value: Bytes)
    requires mark != []
    ensures After(n + 1, s, mark, value) == Pass(After(n, s, mark, value), mark, value)
  {
    if n == 0 {
    } else {
      AfterNext(n - 1, Pass(s, mark, value), mark, value);
    }
  }

  ghost predicate SettledAfter(n: nat, s: Bytes, mark: Bytes, value: Bytes)
    requires mark != []
  {
    Pass(After(n, s, mark, value), mark, value) == After(n, s, mark, value)
  }

  /** Some pass changes nothing, so that the loop ends. */
  ghost predicate Settles(s: Bytes, mark: Bytes, value: Bytes)
    requires mark != []
  {
    exists n: nat :: SettledAfter(n, s, mark, value)
  }

  /** Text with a byte outside ASCII is changed by every pass. */
  lemma HighTextIsChanged(s: Bytes, mark: Bytes, value: Bytes)
    requires mark != [] && Ascii(mark) && !Ascii(s)
    ensures Pass(s, mark, value) != s && !Ascii(Pass(s, mark, value))
  {
    PassCounts(s, mark, value);
    CountsZero(s);
    CountsZero(Pass(s, mark, value));
    NotNegative(Matches(s, mark), Highs(value));
  }

  lemma NotNegative(m: nat, h: nat)
    ensures m * h >= 0
  {}

  lemma {:induction false} HighTextNeverSettles(n: nat, s: Bytes, mark: Bytes, value: Bytes)
    requires mark != [] && Ascii(mark) && !Ascii(s)
    ensures !SettledAfter(n, s, mark, value)
  {
    HighTextIsChanged(s, mark, value);
    if n > 0 {
      HighTextNeverSettles(n - 1, Pass(s, mark, value), mark, value);
    }
  }

  lemma SettledLater(n: nat, s: Bytes, mark: Bytes, value: Bytes)
    requires mark != [] && SettledAfter(n, Pass(s, mark, value), mark, value)
    ensures SettledAfter(n + 1, s, mark, value)
  {}

  /** ASCII text and an ASCII value without braces: at most one pass for every brace. */
  lemma {:induction false} AsciiSettles(s: Bytes, mark: Bytes, value: Bytes) returns (n: nat)
    requires Placeholder(mark) && BRACE !in value && Ascii(s) && Ascii(value)
    ensures SettledAfter(n, s, mark, value) && n <= Braces(s)
    decreases Braces(s)
  {
    ChangingPassLosesBraces(s, mark, value);
    var next := Pass(s, mark, value);
    if next == s {
      n := 0;
    } else {
      AsciiIsKept(s, mark, value);
      n := AsciiSettles(next, mark, value);
      SettledLater(n, s, mark, value);
      n := n + 1;
    }
  }

  /** For a value without braces, exactly when the loop ends. */
  lemma SettlesIff(s: Bytes, mark: Bytes, value: Bytes)
    requires Placeholder(mark) && BRACE !in value
    ensures Settles(s, mark, value) <==> Ascii(s) && (Ascii(value) || !Occurs(s, mark))
  {
    if !Ascii(s) {
      forall n: nat ensures !SettledAfter(n, s, mark, value) {
        HighTextNeverSettles(n, s, mark, value);
      }
    } else {
      ChangingPassLosesBraces(s, mark, value);
      if !Occurs(s, mark) {
        assert SettledAfter(0, s, mark, value);
      } else if Ascii(value) {
        var n := AsciiSettles(s, mark, value);
      } else {
        HighValueNeverSettles(s, mark, value);
      }
    }
  }

  lemma HighValueNeverSettles(s: Bytes, mark: Bytes, value: Bytes)
    requires Placeholder(mark) && BRACE !in value && Ascii(s) && !Ascii(value) && Occurs(s, mark)
    ensures !Settles(s, mark, value)
  {
    HighValueShows(s, mark, value);
    ChangingPassLosesBraces(s, mark, value);
    forall n: nat ensures !SettledAfter(n, s, mark, value) {
      NeverSettlesFrom(n, s, mark, value);
    }
  }

  lemma NeverSettlesFrom(n: nat, s: Bytes, mark: Bytes, value: Bytes)
    requires mark != [] && Ascii(mark) && Pass(s, mark, value) != s && !Ascii(Pass(s, mark, value))
    ensures !SettledAfter(n, s, mark, value)
  {
    if n > 0 {
      HighTextNeverSettles(n - 1, Pass(s, mark, value), mark, value);
    }
  }

  lemma HighValueShows(s: Bytes, mark: Bytes, value: Bytes)
    requires Placeholder(mark) && !Ascii(value) && Occurs(s, mark)
    ensures !Ascii(Pass(s, mark, value))
  {
    PassCounts(s, mark, value);
    MatchesIff(s, mark);
    CountsZero(value);
    CountsZero(Pass(s, mark, value));
    Positive(Matches(s, mark), Highs(value));
  }

  lemma Positive(m: nat, h: nat)
    requires m > 0 && h > 0
    ensures m * h > 0
  {}

  lemma AsciiIsKept(s: Bytes, mark: Bytes, value: Bytes)
    requires Placeholder(mark) && Ascii(s) && Ascii(value)
    ensures Ascii(Pass(s, mark, value))
  {
    PassCounts(s, mark, value);
    CountsZero(s);
    CountsZero(value);
    CountsZero(Pass(s, mark, value));
  }

  /** Where the loop ends with a value without braces, no placeholder is left. */
  lemma SettledHasNoPlaceholder(s: Bytes, mark: Bytes, value: Bytes)
    requires Placeholder(mark) && BRACE !in value && Pass(s, mark, value) == s
    ensures Ascii(s) && !Occurs(s, mark)
  {
    if !Ascii(s) {
      HighTextIsChanged(s, mark, value);
    }
    ChangingPassLosesBraces(s, mark, value);
  }

  /** Only the first settled text can be reached by an ended loop. */
  lemma {:induction false} SettledStays(n: nat, s: Bytes, mark: Bytes, value: Bytes)
    requires mark != [] && Pass(s, mark, value) == s
    ensures After(n, s, mark, value) == s
  {
    if n == 0 {
    } else {
      SettledStays(n - 1, s, mark, value);
    }
  }

  lemma {:induction false} AfterSum(n: nat, m: nat, s: Bytes, mark: Bytes, value: Bytes)
    requires mark != []
    ensures After(n + m, s, mark, value) == After(m, After(n, s, mark, value), mark, value)
  {
    if n == 0 {
    } else {
      AfterSum(n - 1, m, Pass(s, mark, value), mark, value);
    }
  }

  lemma SettledOnce(n: nat, m: nat, s: Bytes, mark: Bytes, value: Bytes)
    requires mark != [] && n <= m && SettledAfter(n, s, mark, value)
    ensures After(m, s, mark, value) == After(n, s, mark, value)
  {
    AfterSum(n, m - n, s, mark, value);
    SettledStays(m - n, After(n, s, mark, value), mark, value);
  }

  /** A pass from place `i` of the text on. */
  lemma PassFrom(s: Bytes, i: nat, mark: Bytes, value: Bytes)
    requires mark != [] && i < |s|
    ensures Pass(s[i..], mark, value) ==
      if i + |mark| <= |s| && s[i..i + |mark|] == mark then value + Pass(s[i + |mark|..], mark, value)
      else Utf8(s[i]) + Pass(s[i + 1..], mark, value)
  {
    var rest := s[i..];
    assert rest[1..] == s[i + 1..];
    if i + |mark| <= |s| {
      assert rest[|mark|..] == s[i + |mark|..] && rest[..|mark|] == s[i..i + |mark|];
    }
  }

  method ReplaceAllString(s: Bytes, mark: Bytes, value: Bytes) returns (result: Bytes)
    requires mark != []
    ensures result == Pass(s, mark, value)
  {
    result := [];
    var i := 0;
    while i < |s|
      invariant 0 <= i <= |s|
      invariant result + Pass(s[i..], mark, value) == Pass(s, mark, value)
    {
      PassFrom(s, i, mark, value);
      if i + |mark| <= |s| && s[i..i + |mark|] == mark {
        Regroup(result, value, Pass(s[i + |mark|..], mark, value));
        result := result + value;
        i := i + |mark| - 1;
      } else {
        Regroup(result, Utf8(s[i]), Pass(s[i + 1..], mark, value));
        result := result + Utf8(s[i]);
      }
      i := i + 1;
    }
  }

  /** What the replacement loop leaves; an empty value leaves the text alone. */
  ghost predicate Filled(sql: Bytes, mark: Bytes, value: Bytes, result: Bytes)
    requires mark != []
  {
    if value == [] then result == sql
    else exists n: nat :: SettledAfter(n, sql, mark, value) && result == After(n, sql, mark, value)
  }

  /** The loop has one possible result. */
  lemma FilledOnce(sql: Bytes, mark: Bytes, value: Bytes, r1: Bytes, r2: Bytes)
    requires mark != [] && Filled(sql, mark, value, r1) && Filled(sql, mark, value, r2)
    ensures r1 == r2
  {
    if value != [] {
      var n: nat :| SettledAfter(n, sql, mark, value) && r1 == After(n, sql, mark, value);
      var m: nat :| SettledAfter(m, sql, mark, value) && r2 == After(m, sql, mark, value);
      if n <= m {
        SettledOnce(n, m, sql, mark, value);
      } else {
        SettledOnce(m, n, sql, mark, value);
      }
    }
  }

  /** The replacement loop, on every input on which it ends. */
  method ReplaceVariable(sql: Bytes, mark: Bytes, value: Bytes) returns (result: Bytes)
    requires mark != [] && (value == [] || Settles(sql, mark, value))
    ensures Filled(sql, mark, value, result)
  {
    if value == [] {
      return sql;
    }
    ghost var last: nat :| SettledAfter(last, sql, mark, value);
    ghost var n := 0;
    result := sql;
    while true
      invariant n <= last && result == After(n, sql, mark, value)
      decreases last - n
    {
      var old_ := result;
      AfterNext(n, sql, mark, value);
      result := ReplaceAllString(result, mark, value);
      if old_ == result {
        assert SettledAfter(n, sql, mark, value);
        break;
      }
      n := n + 1;
    }
  }

  /** A filled-in value without braces leaves no placeholder. */
  lemma FillingLeavesNoPlaceholder(sql: Bytes, mark: Bytes, value: Bytes, result: Bytes)
    requires Placeholder(mark) && value != [] && BRACE !in value && Filled(sql, mark, value, result)
    ensures Ascii(result) && !Occurs(result, mark)
  {
    SettledHasNoPlaceholder(result, mark, value);
  }

  /** The loop comes to the same as one library pass exactly when that pass leaves no placeholder. */
  lemma OnePassIsEnoughIff(sql: Bytes, mark: Bytes, value: Bytes, result: Bytes)
    requires Placeholder(mark) && value != [] && BRACE !in value && Filled(sql, mark, value, result)
    ensures result == ReplaceAll(sql, mark, value) <==> !Occurs(ReplaceAll(sql, mark, value), mark)
  {
    assert Settles(sql, mark, value);
    SettlesIff(sql, mark, value);
    PassIsReplaceAll(sql, mark, value);
    FillingLeavesNoPlaceholder(sql, mark, value, result);
    var once := Pass(sql, mark, value);
    if !Occurs(once, mark) {
      ChangingPassLosesBraces(sql, mark, value);
      if Occurs(sql, mark) {
        AsciiIsKept(sql, mark, value);
      }
      ChangingPassLosesBraces(once, mark, value);
      assert After(1, sql, mark, value) == once by {
        assert After(0, once, mark, value) == once;
      }
      assert SettledAfter(1, sql, mark, value);
      FilledOnce(sql, mark, value, result, once);
    }
  }

  /**
   A replacement can form the placeholder again: a value that is the placeholder's own name, in
   a template that has the placeholder between double braces.
   */
  lemma PassCanFormAPlaceholder(name: Bytes)
    requires name != [] && BRACE !in name
    ensures var mark := [BRACE, BRACE] + name + [125, 125];
            ReplaceAll([BRACE, BRACE] + (mark + [125, 125]), mark, name) == mark
  {
    var mark := [BRACE, BRACE] + name + [125, 125];
    var inner := mark + [125, 125];
    var sql := [BRACE, BRACE] + inner;
    assert mark[1] == BRACE && mark[2] == name[0];
    assert ([BRACE] + inner)[2] == BRACE && sql[2] == BRACE;
    assert sql == [BRACE] + ([BRACE] + inner);
    CopiedOver(BRACE, [BRACE] + inner, mark, name);
    CopiedOver(BRACE, inner, mark, name);
    ReplacedInside(mark, name);
    var replaced := ReplaceAll(sql, mark, name);
    assert replaced == [BRACE] + ([BRACE] + (name + [125, 125]));
    SameText(name);
  }

  lemma SameText(name: Bytes)
    ensures [BRACE] + ([BRACE] + (name + [125, 125])) == [BRACE, BRACE] + name + [125, 125]
  {}

  lemma ReplacedInside(mark: Bytes, value: Bytes)
    requires |mark| > 2
    ensures ReplaceAll(mark + [125, 125], mark, value) == value + [125, 125]
  {
    Replaced([125, 125], mark, value);
    CopiedOver(125, [125], mark, value);
    CopiedOver(125, [], mark, value);
    assert [125, 125] == [125] + [125] && [125] == [125] + [];
  }

  lemma CopiedOver(c: byte, rest: Bytes, mark: Bytes, value: Bytes)
    requires mark != [] && !(mark <= [c] + rest)
    ensures ReplaceAll([c] + rest, mark, value) == [c] + ReplaceAll(rest, mark, value)
  {
    assert ([c] + rest)[1..] == rest;
  }

  lemma Replaced(rest: Bytes, mark: Bytes, value: Bytes)
    requires mark != []
    ensures ReplaceAll(mark + rest, mark, value) == value + ReplaceAll(rest, mark, value)
  {
    assert (mark + rest)[|mark|..] == rest;
  }

  /** A value that holds the placeholder may never be used up, or be left standing. */
  lemma PlaceholderAsItsOwnValue()
    ensures Pass(USERNAME, USERNAME, USERNAME) == USERNAME && Occurs(USERNAME, USERNAME)
  {
    assert USERNAME[|USERNAME|..] == [];
    assert USERNAME[0..] == USERNAME;
  }

  /** Both placeholders, the username first, on every input on which the two loops end. */
  method ReplaceVariables(sql: Bytes, username: Bytes, password: Bytes) returns (result: Bytes)
    requires username == [] || Settles(sql, USERNAME, username)
    requires forall mid :: Filled(sql, USERNAME, username, mid) ==> password == [] || Settles(mid, PASSWORD, password)
    ensures exists mid :: Filled(sql, USERNAME, username, mid) && Filled(mid, PASSWORD, password, result)
  {
    var mid := ReplaceVariable(sql, USERNAME, username);
    result := ReplaceVariable(mid, PASSWORD, password);
  }
}
