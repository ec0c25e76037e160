/** The pattern that matches exactly the numerals following a numeric stem. */
module NumericStem {
  import opened LegalMarkers

  /** One alternative: a prefix, a digit from `lower` to 9 and `suffix` more digits; or any longer numeral. */
  datatype Alternative = SameWidth(prefix: string, lower: nat, suffix: nat) | Longer(width: nat)

  function DigitOf(c: char): int { c as int - '0' as int }

  predicate Matches(a: Alternative, s: string) {
    match a
    case SameWidth(prefix, lower, suffix) =>
      && |s| == |prefix| + 1 + suffix && prefix <= s && lower <= DigitOf(s[|prefix|]) <= 9
      && AllDigits(s[|prefix| + 1..])
    case Longer(width) => |s| >= width + 1 && AllDigits(s) && s[0] != '0'
  }

  predicate AnyMatches(alternatives: seq<Alternative>, s: string) {
    exists k :: 0 <= k < |alternatives| && Matches(alternatives[k], s)
  }

  /** A decimal numeral without leading zeros. */
  predicate IsNumeral(s: string) { s != [] && AllDigits(s) && (s[0] == '0' ==> |s| == 1) }

  /** The numeral of a stem: its leading zeros are dropped. */
  function Canonical(stem: string): string {
    if |stem| > 1 && stem[0] == '0' then Canonical(stem[1..]) else stem
  }

  // ---------------------------------------------------------------- values of digit strings

  lemma {:induction false} ZeroLeads(s: string)
    requires AllDigits(s) && s != [] && s[0] == '0'
    ensures AllDigits(s[1..]) && Decimal(s) == Decimal(s[1..])
  {
    if |s| > 1 {
      var init := s[..|s| - 1];
      ZeroLeads(init);
      assert init[1..] == s[1..][..|s| - 2];
    }
  }

  lemma {:induction false} CanonicalIsNumeral(stem: string)
    requires stem != [] && AllDigits(stem)
    ensures IsNumeral(Canonical(stem)) && Decimal(Canonical(stem)) == Decimal(stem)
  {
    if |stem| > 1 && stem[0] == '0' {
      ZeroLeads(stem);
      CanonicalIsNumeral(stem[1..]);
    }
  }

  lemma {:induction false} LongerIsGreater(a: string, b: string)
    requires AllDigits(a) && AllDigits(b) && |a| > |b| && a[0] != '0'
    ensures Decimal(a) > Decimal(b)
  {
    var n := |a| - 1;
    if n > 0 { LongerIsGreater(a[..n], if b == [] then [] else b[..|b| - 1]); }
  }

  /** Same length: the first difference is upwards at `i`. */
  predicate RisesAt(a: string, b: string, i: nat) { i < |a| && i < |b| && a[..i] == b[..i] && a[i] > b[i] }

  lemma {:induction false} SameWidthOrder(a: string, b: string)
    requires AllDigits(a) && AllDigits(b) && |a| == |b|
    ensures Decimal(a) > Decimal(b) <==> exists i: nat :: RisesAt(a, b, i)
    ensures Decimal(a) == Decimal(b) <==> a == b
  {
    if a != [] {
      var n := |a| - 1;
      SameWidthOrder(a[..n], b[..n]);
      assert a == a[..n] + [a[n]] && b == b[..n] + [b[n]];
      if i: nat :| RisesAt(a[..n], b[..n], i) {
        assert a[..n][..i] == a[..i] && b[..n][..i] == b[..i];
        assert RisesAt(a, b, i);
      }
      if i: nat :| RisesAt(a, b, i) {
        if i < n {
          assert a[..n][..i] == a[..i] && b[..n][..i] == b[..i];
          assert RisesAt(a[..n], b[..n], i);
        }
      }
      if a[..n] == b[..n] && a[n] > b[n] { assert RisesAt(a, b, n); }
    }
  }

  // ---------------------------------------------------------------- building the pattern

  /** The same-width alternatives for the first `n` digits. */
  function SameWidths(digits: string, n: nat): seq<Alternative>
    requires n <= |digits| && AllDigits(digits)
  {
    if n == 0 then []
    else
      var lower := DigitOf(digits[n - 1]) + 1;
      SameWidths(digits, n - 1) +
      if lower > 9 then [] else [SameWidth(digits[..n - 1], lower, |digits| - n)]
  }

  method FollowingNumericStemMarker(stem: string) returns (alternatives: seq<Alternative>)
    requires stem != [] && AllDigits(stem)
    ensures forall s :: AnyMatches(alternatives, s) <==> IsNumeral(s) && Decimal(s) > Decimal(stem)
  {
    CanonicalIsNumeral(stem);
    var digits := Canonical(stem);
    alternatives := [];
    for index := 0 to |digits|
      invariant alternatives == SameWidths(digits, index)
    {
      var lower := DigitOf(digits[index]) + 1;
      if index == 0 { lower := if lower > 1 then lower else 1; }
      if lower > 9 { continue; }
      alternatives := alternatives + [SameWidth(digits[..index], lower, |digits| - index - 1)];
    }
    alternatives := alternatives + [Longer(|digits|)];
    forall s ensures AnyMatches(alternatives, s) <==> IsNumeral(s) && Decimal(s) > Decimal(stem) {
      PatternIsExact(digits, s);
    }
  }

  lemma RiseMatches(digits: string, i: nat, s: string)
    requires AllDigits(digits) && i < |digits|
    ensures DigitOf(digits[i]) + 1 > 9 ==> !(AllDigits(s) && RisesAt(s, digits, i))
    ensures Matches(SameWidth(digits[..i], DigitOf(digits[i]) + 1, |digits| - i - 1), s) <==>
            AllDigits(s) && |s| == |digits| && RisesAt(s, digits, i)
  {
    if Matches(SameWidth(digits[..i], DigitOf(digits[i]) + 1, |digits| - i - 1), s) {
      assert s[..i] == digits[..i];
      forall k | 0 <= k < |s| ensures IsDigit(s[k]) {
        if k < i {
          assert s[k] == s[..i][k] == digits[..i][k] == digits[k];
        } else if k > i {
          assert s[k] == s[i + 1..][k - i - 1];
        }
      }
    }
  }

  lemma {:induction false} SameWidthsMatch(digits: string, n: nat, s: string)
    requires n <= |digits| && AllDigits(digits)
    ensures AnyMatches(SameWidths(digits, n), s) <==>
            AllDigits(s) && |s| == |digits| && exists i: nat :: i < n && RisesAt(s, digits, i)
  {
    if n > 0 {
      SameWidthsMatch(digits, n - 1, s);
      RiseMatches(digits, n - 1, s);
      var before, all := SameWidths(digits, n - 1), SameWidths(digits, n);
      assert forall k :: 0 <= k < |before| ==> all[k] == before[k];
      if AnyMatches(before, s) {
        var k :| 0 <= k < |before| && Matches(before[k], s);
        assert Matches(all[k], s);
      }
      if |all| > |before| {
        assert all[|before|] == SameWidth(digits[..n - 1], DigitOf(digits[n - 1]) + 1, |digits| - n);
      }
    }
  }

  /** The pattern matches a text exactly when it is a numeral, of any length, with a greater value. */
  lemma PatternIsExact(digits: string, s: string)
    requires IsNumeral(digits)
    ensures AnyMatches(SameWidths(digits, |digits|) + [Longer(|digits|)], s) <==>
            IsNumeral(s) && Decimal(s) > Decimal(digits)
  {
    SameWidthsMatch(digits, |digits|, s);
    var same := SameWidths(digits, |digits|);
    AnyOfBoth(same, Longer(|digits|), s);
    if AllDigits(s) && s != [] {
      if |s| == |digits| {
        SameWidthOrder(s, digits);
        if i: nat :| RisesAt(s, digits, i) { RiseKeepsNumeral(digits, s, i); }
      } else if |s| > |digits| {
        if s[0] != '0' { LongerIsGreater(s, digits); }
      } else {
        LongerIsGreater(digits, s);
      }
    }
  }

  lemma AnyOfBoth(some: seq<Alternative>, last: Alternative, s: string)
    ensures AnyMatches(some + [last], s) <==> AnyMatches(some, s) || Matches(last, s)
  {
    var all := some + [last];
    if k :| 0 <= k < |some| && Matches(some[k], s) { assert all[k] == some[k]; }
    assert all[|some|] == last;
  }

  lemma RiseKeepsNumeral(digits: string, s: string, i: nat)
    requires IsNumeral(digits) && AllDigits(s) && |s| == |digits| && RisesAt(s, digits, i)
    ensures IsNumeral(s)
  {
    if i > 0 { assert s[0] == s[..i][0] == digits[..i][0] == digits[0]; }
  }
}
