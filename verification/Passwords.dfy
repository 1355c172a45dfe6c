/** Forcing the four kinds of characters into a generated password. */
module Passwords {

  /** The alphabets are disjoint, so that a character is of one kind. */
  datatype Kind = Lower | Upper | Digit | Special | Other

  function KindOf(c: char): Kind {
    if 'a' <= c <= 'z' then Lower
    else if 'A' <= c <= 'Z' then Upper
    else if '0' <= c <= '9' then Digit
    else if c == '!' || c == '@' then Special
    else Other
  }

  const REQUIRED: seq<Kind> := [Lower, Upper, Digit, Special]

  predicate Has(s: string, k: Kind) {
    exists i :: 0 <= i < |s| && KindOf(s[i]) == k
  }

  predicate HasFrom(s: string, start: nat, k: Kind) {
    exists i :: start <= i < |s| && KindOf(s[i]) == k
  }

  ghost predicate HasAll(s: string) {
    Has(s, Lower) && Has(s, Upper) && Has(s, Digit) && Has(s, Special)
  }

  /** Those of the given kinds that do not occur, in order. */
  function Missing(s: string, kinds: seq<Kind>): (missing: seq<Kind>)
    ensures |missing| <= |kinds|
    ensures forall k :: k in missing <==> k in kinds && !Has(s, k)
  {
    if kinds == [] then []
    else
      var init, last := kinds[..|kinds| - 1], kinds[|kinds| - 1];
      assert kinds == init + [last];
      if Has(s, last) then Missing(s, init) else Missing(s, init) + [last]
  }

  /** Of `kinds` put one after the other at the positions 0, 1, 2, … modulo `n`, the one that stays at `i`. */
  function Overlay(n: nat, kinds: seq<Kind>, i: nat): (k: Kind)
    requires n > 0
  {
    if kinds == [] then Other
    else if (|kinds| - 1) % n == i then kinds[|kinds| - 1]
    else Overlay(n, kinds[..|kinds| - 1], i)
  }

  /** What may come of a password: missing kinds overwrite it from the front, the rest stays. */
  ghost predicate Ensured(password: string, result: string) {
    Overlaid(password, Missing(password, REQUIRED), result)
  }

  ghost predicate Overlaid(password: string, missing: seq<Kind>, result: string) {
    && |result| == |password|
    && (forall i :: |missing| <= i < |password| ==> result[i] == password[i])
    && (forall i :: 0 <= i < |password| && i < |missing| ==>
          KindOf(result[i]) == Overlay(|password|, missing, i))
  }

  lemma {:induction false} OverlayOfFew(n: nat, kinds: seq<Kind>, i: nat)
    requires |kinds| <= n && i < |kinds|
    ensures Overlay(n, kinds, i) == kinds[i]
  {
    if (|kinds| - 1) % n != i {
      OverlayOfFew(n, kinds[..|kinds| - 1], i);
    }
  }

  /** Place `i` keeps the last of the kinds that fall on it. */
  lemma {:induction false} OverlayIsLast(n: nat, kinds: seq<Kind>, i: nat, j: nat)
    requires n > 0 && j < |kinds| && j % n == i && forall l :: j < l < |kinds| ==> l % n != i
    ensures Overlay(n, kinds, i) == kinds[j]
  {
    if j < |kinds| - 1 {
      OverlayIsLast(n, kinds[..|kinds| - 1], i, j);
    }
  }

  /** An alphabet without gaps is a range. */
  lemma IsRange(c: char, alphabet: string, first: int)
    requires forall i :: 0 <= i < |alphabet| ==> alphabet[i] as int == first + i
    ensures c in alphabet <==> first <= c as int < first + |alphabet|
  {
    if first <= c as int < first + |alphabet| {
      assert alphabet[c as int - first] == c;
    }
  }

  /** The alphabets of the four kinds. */
  lemma AlphabetsAre(c: char)
    ensures KindOf(c) == Lower <==> c in "abcdefghijklmnopqrstuvwxyz"
    ensures KindOf(c) == Upper <==> c in "ABCDEFGHIJKLMNOPQRSTUVWXYZ"
    ensures KindOf(c) == Digit <==> c in "0123456789"
    ensures KindOf(c) == Special <==> c in "!@"
  {
    IsRange(c, "abcdefghijklmnopqrstuvwxyz", 97);
    IsRange(c, "ABCDEFGHIJKLMNOPQRSTUVWXYZ", 65);
    IsRange(c, "0123456789", 48);
  }

  /** What each kind needs: a missing one gets in; a present one has to occur behind the overwritten part. */
  lemma KindIsThereIff(password: string, result: string, k: Kind)
    requires Ensured(password, result) && k in REQUIRED
    requires |Missing(password, REQUIRED)| <= |password|
    ensures Has(result, k) <==> !Has(password, k) || HasFrom(password, |Missing(password, REQUIRED)|, k)
  {
    var missing := Missing(password, REQUIRED);
    var n := |password|;
    forall i | 0 <= i < |missing| ensures KindOf(result[i]) == missing[i] {
      OverlayOfFew(n, missing, i);
    }
    if !Has(password, k) {
      var j :| 0 <= j < |missing| && missing[j] == k;
      assert KindOf(result[j]) == k;
    } else {
      assert forall i :: 0 <= i < |missing| ==> missing[i] in missing;
      assert forall i :: |missing| <= i < n ==> KindOf(result[i]) == KindOf(password[i]);
    }
  }

  /** A long enough password of none of the four kinds gets them in front, in this order, and keeps the rest. */
  lemma AllFourInFront(password: string, result: string)
    requires |password| >= 4 && Ensured(password, result)
    requires forall i :: 0 <= i < |password| ==> KindOf(password[i]) == Other
    ensures KindOf(result[0]) == Lower && KindOf(result[1]) == Upper
    ensures KindOf(result[2]) == Digit && KindOf(result[3]) == Special
    ensures result[4..] == password[4..]
  {
    var missing := Missing(password, REQUIRED);
    NoneOccursAllMissing(password, REQUIRED);
    forall i | 0 <= i < 4 ensures KindOf(result[i]) == REQUIRED[i] {
      OverlayOfFew(|password|, missing, i);
    }
    assert REQUIRED[0] == Lower && REQUIRED[1] == Upper && REQUIRED[2] == Digit && REQUIRED[3] == Special;
  }

  lemma {:induction false} NoneOccursAllMissing(s: string, kinds: seq<Kind>)
    requires forall k :: k in kinds ==> !Has(s, k)
    ensures Missing(s, kinds) == kinds
  {
    if kinds == [] {
    } else {
      NoneOccursAllMissing(s, kinds[..|kinds| - 1]);
    }
  }

  lemma ThreeAreTooShort(s: string)
    requires HasAll(s)
    ensures |s| >= 4
  {
    var a :| 0 <= a < |s| && KindOf(s[a]) == Lower;
    var b :| 0 <= b < |s| && KindOf(s[b]) == Upper;
    var c :| 0 <= c < |s| && KindOf(s[c]) == Digit;
    var d :| 0 <= d < |s| && KindOf(s[d]) == Special;
  }

  /**
   The exact condition for a password that meets all four requirements: it is long enough for
   the missing kinds, and no kind that was there stood only where they were written.
   */
  lemma EnsuredMeetsRequirementsIff(password: string, result: string)
    requires Ensured(password, result)
    ensures var m := |Missing(password, REQUIRED)|;
            HasAll(result) <==>
              m <= |password| && forall k :: k in REQUIRED && Has(password, k) ==> HasFrom(password, m, k)
  {
    if |Missing(password, REQUIRED)| > |password| {
      if HasAll(result) {
        ThreeAreTooShort(result);
      }
    } else {
      forall k | k in REQUIRED
        ensures Has(result, k) <==> !Has(password, k) || HasFrom(password, |Missing(password, REQUIRED)|, k)
      {
        KindIsThereIff(password, result, k);
      }
      assert REQUIRED[0] == Lower && REQUIRED[1] == Upper && REQUIRED[2] == Digit && REQUIRED[3] == Special;
    }
  }

  /** A password of a length the generator gives: its one digit makes way for the missing lower-case letter. */
  lemma OnlyDigitIsOverwritten(result: string)
    requires Ensured("7AAAAAAAAAAAAAA!", result)
    ensures Missing("7AAAAAAAAAAAAAA!", REQUIRED) == [Lower]
    ensures Has("7AAAAAAAAAAAAAA!", Digit) && !Has(result, Digit)
  {
    var s := "7AAAAAAAAAAAAAA!";
    assert KindOf(s[0]) == Digit && KindOf(s[15]) == Special;
    assert forall i :: 1 <= i < 15 ==> KindOf(s[i]) == Upper;
    assert KindOf(s[1]) == Upper;
    assert !Has(s, Lower);
    MissingLower(s);
    OverlayOfFew(16, [Lower], 0);
    assert KindOf(result[0]) == Lower;
    assert forall i :: 1 <= i < 16 ==> result[i] == s[i];
  }

  lemma MissingLower(s: string)
    requires !Has(s, Lower) && Has(s, Upper) && Has(s, Digit) && Has(s, Special)
    ensures Missing(s, REQUIRED) == [Lower]
  {
    var kinds := REQUIRED;
    assert kinds[..3] == [Lower, Upper, Digit] && kinds[..3][..2] == [Lower, Upper];
    assert kinds[..3][..2][..1] == [Lower] && kinds[..3][..2][..1][..0] == [];
    assert Missing(s, [Lower]) == [] + [Lower];
    assert Missing(s, [Lower, Upper]) == [Lower];
    assert Missing(s, [Lower, Upper, Digit]) == [Lower];
  }

  /** mrand.Intn over the alphabet of a kind: any of its characters. */
  method Pick(k: Kind) returns (c: char)
    requires k in REQUIRED
    ensures KindOf(c) == k
  {
    assert KindOf('a') == Lower && KindOf('A') == Upper && KindOf('0') == Digit && KindOf('!') == Special;
    c :| KindOf(c) == k;
  }

  method EnsurePasswordRequirements(password: string) returns (result: string)
    ensures Ensured(password, result)
  {
    if |password| == 0 {
      return password;
    }
    var runes := new char[|password|](i requires 0 <= i < |password| => password[i]);
    assert runes[..] == password;
    var hasLower, hasUpper, hasDigit, hasSpecial := KindsPresent(runes);
    var required := [(hasLower, Lower), (hasUpper, Upper), (hasDigit, Digit), (hasSpecial, Special)];
    var idx := 0;
    ghost var missing: seq<Kind> := [];
    for j := 0 to |required|
      invariant runes.Length == |password|
      invariant idx == |missing| && missing == Missing(password, REQUIRED[..j])
      invariant Overlaid(password, missing, runes[..])
    {
      var (check, kind) := required[j];
      assert kind == REQUIRED[j] && (check <==> Has(password, kind));
      MissingNext(password, j);
      if !check {
        var pos := idx % runes.Length;
        var c := Pick(kind);
        Overwrite(password, missing, kind, runes[..], c);
        runes[pos] := c;
        idx := idx + 1;
        missing := missing + [kind];
      }
    }
    assert REQUIRED[..4] == REQUIRED;
    result := runes[..];
  }

  lemma MissingNext(s: string, j: nat)
    requires j < |REQUIRED|
    ensures Missing(s, REQUIRED[..j + 1]) ==
      if Has(s, REQUIRED[j]) then Missing(s, REQUIRED[..j]) else Missing(s, REQUIRED[..j]) + [REQUIRED[j]]
  {
    assert REQUIRED[..j + 1][..j] == REQUIRED[..j] && REQUIRED[..j + 1][j] == REQUIRED[j];
  }

  /** The first loop: which kinds occur. */
  method KindsPresent(runes: array<char>) returns (lower: bool, upper: bool, digit: bool, special: bool)
    ensures lower <==> Has(runes[..], Lower)
    ensures upper <==> Has(runes[..], Upper)
    ensures digit <==> Has(runes[..], Digit)
    ensures special <==> Has(runes[..], Special)
  {
    lower, upper, digit, special := false, false, false, false;
    for i := 0 to runes.Length
      invariant lower <==> Has(runes[..i], Lower)
      invariant upper <==> Has(runes[..i], Upper)
      invariant digit <==> Has(runes[..i], Digit)
      invariant special <==> Has(runes[..i], Special)
    {
      HasNext(runes[..], i);
      assert runes[..][..i] == runes[..i] && runes[..][..i + 1] == runes[..i + 1];
      match KindOf(runes[i]) {
        case Lower => lower := true;
        case Upper => upper := true;
        case Digit => digit := true;
        case Special => special := true;
        case Other =>
      }
    }
    assert runes[..runes.Length] == runes[..];
  }

  lemma Overwrite(password: string, missing: seq<Kind>, k: Kind, before: string, c: char)
    requires password != "" && Overlaid(password, missing, before) && KindOf(c) == k
    ensures Overlaid(password, missing + [k], before[|missing| % |password| := c])
  {
    OneMore(|password|, missing, k);
  }

  lemma HasNext(s: string, i: nat)
    requires i < |s|
    ensures forall k :: Has(s[..i + 1], k) <==> Has(s[..i], k) || KindOf(s[i]) == k
  {
    forall k ensures Has(s[..i + 1], k) <==> Has(s[..i], k) || KindOf(s[i]) == k {
      if KindOf(s[i]) == k {
        assert s[..i + 1][i] == s[i];
      }
      if Has(s[..i], k) {
        var l :| 0 <= l < i && KindOf(s[..i][l]) == k;
        assert s[..i + 1][l] == s[..i][l];
      }
      if Has(s[..i + 1], k) && KindOf(s[i]) != k {
        var l :| 0 <= l < i + 1 && KindOf(s[..i + 1][l]) == k;
        assert s[..i][l] == s[..i + 1][l];
      }
    }
  }

  lemma OneMore(n: nat, kinds: seq<Kind>, k: Kind)
    requires n > 0
    ensures forall i :: 0 <= i < n ==>
      Overlay(n, kinds + [k], i) == if |kinds| % n == i then k else Overlay(n, kinds, i)
    ensures |kinds| % n <= |kinds|
    ensures |kinds| < n ==> |kinds| % n == |kinds|
  {
    assert (kinds + [k])[..|kinds|] == kinds;
  }
}
