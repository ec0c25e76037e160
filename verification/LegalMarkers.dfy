/**
 Kinds and ordinals of parenthetical legal markers, and the level that a marker takes on a stack of
 open paragraphs.  The regulation cycle follows section 21.11 of title 1 CFR.
 */
module LegalMarkers {
  import opened Common

  const MAX_TOKEN_LENGTH := 32

  datatype Kind = LowerAlpha | Numeric | UpperAlpha | LowerRoman | UpperRoman

  function KindForLevel(level: nat, regulation: bool): Kind {
    if level == 0 then LowerAlpha
    else if regulation then
      (match (level - 1) % 3 case 0 => Numeric case 1 => LowerRoman case _ => UpperAlpha)
    else
      (match (level - 1) % 4 case 0 => Numeric case 1 => UpperAlpha case 2 => LowerRoman case _ => UpperRoman)
  }

  // ---------------------------------------------------------------- Roman numerals

  function Repeat(k: nat, c: char): string { if k == 0 then [] else [c] + Repeat(k - 1, c) }

  /** One decimal digit in Roman notation, with the symbols of its place. */
  function RomanDigit(d: nat, one: char, five: char, ten: char): string
    requires d < 10
  {
    if d <= 3 then Repeat(d, one)
    else if d == 4 then [one] + [five]
    else if d <= 8 then [five] + Repeat(d - 5, one)
    else [one] + [ten]
  }

  /** Lower-case numerals with decimal digits `k`, `h`, `t` and `u`, as the canonical pattern generates them. */
  function Numeral(k: nat, h: nat, t: nat, u: nat): string
    requires k < 4 && h < 10 && t < 10 && u < 10
  {
    Repeat(k, 'm') +
    (RomanDigit(h, 'c', 'd', 'm') + (RomanDigit(t, 'x', 'l', 'c') + RomanDigit(u, 'i', 'v', 'x')))
  }

  function Upper(c: char): char {
    if 'a' <= c <= 'z' then (c as int - 32) as char else c
  }

  function Lower(c: char): char {
    if 'A' <= c <= 'Z' then (c as int + 32) as char else c
  }

  function Uppercase(s: string): string { seq(|s|, i requires 0 <= i < |s| => Upper(s[i])) }

  function Lowercase(s: string): string { seq(|s|, i requires 0 <= i < |s| => Lower(s[i])) }

  /** A nonempty token that the canonical Roman pattern matches in full. */
  predicate IsCanonicalRoman(token: string, uppercase: bool) {
    token != [] &&
    exists k: nat, h: nat, t: nat, u: nat :: k < 4 && h < 10 && t < 10 && u < 10 &&
      token == if uppercase then Uppercase(Numeral(k, h, t, u)) else Numeral(k, h, t, u)
  }

  function RomanSymbol(c: char): Option<nat> {
    if c == 'i' then Some(1) else if c == 'v' then Some(5) else if c == 'x' then Some(10)
    else if c == 'l' then Some(50) else if c == 'c' then Some(100) else if c == 'd' then Some(500)
    else if c == 'm' then Some(1000) else None
  }

  /** Right-to-left evaluation: the total so far and the largest symbol met. */
  datatype RomanScan = RomanScan(total: int, previous: nat)

  function RomanStep(r: RomanScan, value: nat): RomanScan {
    if value < r.previous then RomanScan(r.total - value, r.previous) else RomanScan(r.total + value, value)
  }

  function RomanFold(s: string): Option<RomanScan> {
    if s == [] then Some(RomanScan(0, 0))
    else match (RomanSymbol(s[0]), RomanFold(s[1..]))
      case (Some(v), Some(r)) => Some(RomanStep(r, v))
      case _ => None
  }

  function RomanValue(token: string): Option<int> {
    match RomanFold(token)
    case Some(RomanScan(total, _)) => if total != 0 then Some(total) else None
    case None => None
  }

  method RomanMarkerToInt(token: string) returns (r: Option<int>)
    ensures r == RomanValue(token)
  {
    var total: int, previous: nat, k := 0, 0, |token|;
    assert token[k..] == [];
    while k > 0
      invariant 0 <= k <= |token|
      invariant RomanFold(token[k..]) == Some(RomanScan(total, previous))
    {
      k := k - 1;
      assert token[k..][1..] == token[k + 1..];
      var value := RomanSymbol(token[k]);
      if value.None? {
        FoldFails(token, k);
        return None;
      }
      if value.value < previous {
        total := total - value.value;
      } else {
        total, previous := total + value.value, value.value;
      }
    }
    assert token[0..] == token;
    r := if total != 0 then Some(total) else None;
  }

  lemma {:induction false} FoldFails(token: string, k: nat)
    requires k < |token| && RomanSymbol(token[k]).None?
    ensures RomanFold(token).None?
  {
    if k > 0 {
      assert token[1..][k - 1] == token[k];
      FoldFails(token[1..], k - 1);
    }
  }

  lemma FoldCons(c: char, s: string, r: RomanScan)
    requires RomanSymbol(c).Some? && RomanFold(s) == Some(r)
    ensures RomanFold([c] + s) == Some(RomanStep(r, RomanSymbol(c).value))
  {
    assert ([c] + s)[1..] == s;
  }

  /** `k` times `unit`, by addition. */
  function Times(k: nat, unit: nat): nat { if k == 0 then 0 else Times(k - 1, unit) + unit }

  lemma {:induction false} UnitsAdd(k: nat, one: char, unit: nat, s: string, r: RomanScan)
    requires RomanSymbol(one) == Some(unit) && RomanFold(s) == Some(r) && r.previous <= unit
    ensures RomanFold(Repeat(k, one) + s) ==
            Some(RomanScan(r.total + Times(k, unit), if k == 0 then r.previous else unit))
  {
    if k == 0 {
      assert Repeat(k, one) + s == s;
    } else {
      UnitsAdd(k - 1, one, unit, s, r);
      FoldCons(one, Repeat(k - 1, one) + s, RomanFold(Repeat(k - 1, one) + s).value);
      assert Repeat(k, one) + s == [one] + (Repeat(k - 1, one) + s);
    }
  }

  lemma PairSubtracts(one: char, big: char, s: string, r: RomanScan)
    requires RomanSymbol(one).Some? && RomanSymbol(big).Some? && RomanFold(s) == Some(r)
    requires RomanSymbol(one).value < RomanSymbol(big).value && r.previous <= RomanSymbol(big).value
    ensures RomanFold([one] + [big] + s) ==
            Some(RomanScan(r.total + RomanSymbol(big).value - RomanSymbol(one).value, RomanSymbol(big).value))
  {
    FoldCons(big, s, r);
    FoldCons(one, [big] + s, RomanStep(r, RomanSymbol(big).value));
    assert [one] + [big] + s == [one] + ([big] + s);
  }

  lemma FiveThenUnits(k: nat, one: char, five: char, unit: nat, s: string, r: RomanScan)
    requires RomanSymbol(one) == Some(unit) && RomanSymbol(five) == Some(5 * unit)
    requires RomanFold(s) == Some(r) && r.previous <= unit
    ensures RomanFold([five] + Repeat(k, one) + s) == Some(RomanScan(r.total + Times(k, unit) + 5 * unit, 5 * unit))
  {
    UnitsAdd(k, one, unit, s, r);
    var mid := Repeat(k, one) + s;
    FoldCons(five, mid, RomanFold(mid).value);
    assert [five] + Repeat(k, one) + s == [five] + mid;
  }

  lemma TimesUpToNine(unit: nat)
    ensures Times(4, unit) == 4 * unit && Times(9, unit) == 9 * unit
    ensures forall k :: 0 <= k <= 3 ==> Times(k + 5, unit) == Times(k, unit) + 5 * unit
  {
    assert Times(1, unit) == unit;
    assert Times(2, unit) == 2 * unit;
    assert Times(3, unit) == 3 * unit;
    assert Times(4, unit) == 4 * unit;
    assert Times(5, unit) == 5 * unit;
    assert Times(6, unit) == 6 * unit;
    assert Times(7, unit) == 7 * unit;
    assert Times(8, unit) == 8 * unit;
  }

  /** A digit adds its decimal value when no smaller place has shown a larger symbol than its unit. */
  lemma DigitAdds(d: nat, one: char, five: char, ten: char, unit: nat, s: string, r: RomanScan)
    requires d < 10 && unit > 0
    requires RomanSymbol(one) == Some(unit) && RomanSymbol(five) == Some(5 * unit)
    requires RomanSymbol(ten) == Some(10 * unit)
    requires RomanFold(s) == Some(r) && r.previous <= unit
    ensures var f := RomanFold(RomanDigit(d, one, five, ten) + s);
            f.Some? && f.value.total == r.total + Times(d, unit) && f.value.previous <= 10 * unit
  {
    TimesUpToNine(unit);
    if d <= 3 {
      UnitsAdd(d, one, unit, s, r);
    } else if d == 4 {
      PairSubtracts(one, five, s, r);
    } else if d <= 8 {
      FiveThenUnits(d - 5, one, five, unit, s, r);
      assert Times(d - 5 + 5, unit) == Times(d - 5, unit) + 5 * unit;
    } else {
      PairSubtracts(one, ten, s, r);
    }
  }

  lemma {:induction false} TimesPlaces(d: nat)
    ensures Times(d, 1) == d && Times(d, 10) == 10 * d && Times(d, 100) == 100 * d && Times(d, 1000) == 1000 * d
  {
    if d > 0 { TimesPlaces(d - 1); }
  }

  lemma UnitsFold(u: nat)
    requires u < 10
    ensures var f := RomanFold(RomanDigit(u, 'i', 'v', 'x')); f.Some? && f.value.total == u && f.value.previous <= 10
  {
    var units := RomanDigit(u, 'i', 'v', 'x');
    assert units + [] == units;
    DigitAdds(u, 'i', 'v', 'x', 1, [], RomanScan(0, 0));
    TimesPlaces(u);
  }

  lemma TensFold(t: nat, s: string, n: nat)
    requires t < 10 && RomanFold(s).Some? && RomanFold(s).value.total == n && RomanFold(s).value.previous <= 10
    ensures var f := RomanFold(RomanDigit(t, 'x', 'l', 'c') + s);
            f.Some? && f.value.total == 10 * t + n && f.value.previous <= 100
  {
    DigitAdds(t, 'x', 'l', 'c', 10, s, RomanFold(s).value);
    TimesPlaces(t);
  }

  lemma HundredsFold(h: nat, s: string, n: nat)
    requires h < 10 && RomanFold(s).Some? && RomanFold(s).value.total == n && RomanFold(s).value.previous <= 100
    ensures var f := RomanFold(RomanDigit(h, 'c', 'd', 'm') + s);
            f.Some? && f.value.total == 100 * h + n && f.value.previous <= 1000
  {
    DigitAdds(h, 'c', 'd', 'm', 100, s, RomanFold(s).value);
    TimesPlaces(h);
  }

  lemma ThousandsFold(k: nat, s: string, n: nat)
    requires RomanFold(s).Some? && RomanFold(s).value.total == n && RomanFold(s).value.previous <= 1000
    ensures var f := RomanFold(Repeat(k, 'm') + s); f.Some? && f.value.total == 1000 * k + n
  {
    UnitsAdd(k, 'm', 1000, s, RomanFold(s).value);
    TimesPlaces(k);
  }

  /** The right-to-left evaluation inverts the canonical numerals. */
  lemma RomanRoundTrip(k: nat, h: nat, t: nat, u: nat)
    requires k < 4 && h < 10 && t < 10 && u < 10
    ensures RomanValue(Numeral(k, h, t, u)) ==
            var n := 1000 * k + 100 * h + 10 * t + u; if n == 0 then None else Some(n)
  {
    var units := RomanDigit(u, 'i', 'v', 'x');
    UnitsFold(u);
    var tens := RomanDigit(t, 'x', 'l', 'c') + units;
    TensFold(t, units, u);
    var hundreds := RomanDigit(h, 'c', 'd', 'm') + tens;
    HundredsFold(h, tens, 10 * t + u);
    ThousandsFold(k, hundreds, 100 * h + (10 * t + u));
    ValueOfFold(Repeat(k, 'm') + hundreds, 1000 * k + (100 * h + (10 * t + u)));
  }

  lemma ValueOfFold(s: string, n: nat)
    requires RomanFold(s).Some? && RomanFold(s).value.total == n
    ensures RomanValue(s) == if n == 0 then None else Some(n)
  {
  }

  // ---------------------------------------------------------------- ordinals of a token

  predicate IsDigit(c: char) { '0' <= c <= '9' }

  predicate AllDigits(s: string) { forall i :: 0 <= i < |s| ==> IsDigit(s[i]) }

  function Decimal(s: string): nat
    requires AllDigits(s)
  {
    if s == [] then 0 else 10 * Decimal(s[..|s| - 1]) + (s[|s| - 1] as int - '0' as int)
  }

  /** The ordinal of a token read as a marker of the given kind, if it can be read so. */
  function OrdinalOf(token: string, kind: Kind): Option<int> {
    if |token| > MAX_TOKEN_LENGTH then None
    else match kind
      case Numeric =>
        if token != [] && AllDigits(token) && token[0] != '0' then Some(Decimal(token)) else None
      case LowerAlpha =>
        if |token| == 1 && 'a' <= token[0] <= 'z' then Some(token[0] as int - 'a' as int + 1) else None
      case UpperAlpha =>
        if |token| == 1 && 'A' <= token[0] <= 'Z' then Some(token[0] as int - 'A' as int + 1) else None
      case LowerRoman =>
        if IsCanonicalRoman(token, false) then RomanValue(Lowercase(token)) else None
      case UpperRoman =>
        if IsCanonicalRoman(token, true) then RomanValue(Lowercase(token)) else None
  }

  /** How many kinds a token can be read as. */
  function KindCount(token: string): nat {
    Readable(token, Numeric) + Readable(token, LowerAlpha) + Readable(token, UpperAlpha) +
    Readable(token, LowerRoman) + Readable(token, UpperRoman)
  }

  function Readable(token: string, kind: Kind): nat { if OrdinalOf(token, kind).Some? then 1 else 0 }

  /** A number in decimal notation. */
  function InDecimal(n: nat): (s: string)
    ensures s != []
  {
    if n < 10 then [('0' as int + n) as char] else InDecimal(n / 10) + [('0' as int + n % 10) as char]
  }

  lemma {:induction false} DecimalRoundTrip(n: nat)
    ensures AllDigits(InDecimal(n)) && Decimal(InDecimal(n)) == n && (n > 0 ==> InDecimal(n)[0] != '0')
  {
    var s := InDecimal(n);
    if n < 10 {
      assert s[..0] == [] && Decimal(s[..0]) == 0;
    } else {
      DecimalRoundTrip(n / 10);
      assert s[..|s| - 1] == InDecimal(n / 10);
    }
  }

  /** A decimal token has the number it denotes as its ordinal. */
  lemma NumericOrdinal(n: nat)
    requires n > 0 && |InDecimal(n)| <= MAX_TOKEN_LENGTH
    ensures OrdinalOf(InDecimal(n), Numeric) == Some(n)
  {
    DecimalRoundTrip(n);
  }

  predicate IsLower(s: string) { forall i :: 0 <= i < |s| ==> 'a' <= s[i] <= 'z' }

  lemma {:induction false} RepeatLower(k: nat, c: char)
    requires 'a' <= c <= 'z'
    ensures IsLower(Repeat(k, c))
  {
    if k > 0 { RepeatLower(k - 1, c); }
  }

  lemma DigitLower(d: nat, one: char, five: char, ten: char)
    requires d < 10 && IsLower([one, five, ten])
    ensures IsLower(RomanDigit(d, one, five, ten))
  {
    assert [one, five, ten][0] == one && [one, five, ten][1] == five && [one, five, ten][2] == ten;
    RepeatLower(d, one);
    if d >= 5 { RepeatLower(d - 5, one); }
  }

  lemma NumeralLower(k: nat, h: nat, t: nat, u: nat)
    requires k < 4 && h < 10 && t < 10 && u < 10
    ensures IsLower(Numeral(k, h, t, u))
  {
    RepeatLower(k, 'm');
    DigitLower(h, 'c', 'd', 'm');
    DigitLower(t, 'x', 'l', 'c');
    DigitLower(u, 'i', 'v', 'x');
  }

  lemma CaseRoundTrip(s: string)
    requires IsLower(s)
    ensures Lowercase(s) == s && Lowercase(Uppercase(s)) == s && |Uppercase(s)| == |s|
  {
  }

  /** A canonical Roman token, in either case, has the number it denotes as its ordinal. */
  lemma RomanOrdinal(k: nat, h: nat, t: nat, u: nat, uppercase: bool)
    requires k < 4 && h < 10 && t < 10 && u < 10 && 0 < |Numeral(k, h, t, u)| <= MAX_TOKEN_LENGTH
    ensures var token := if uppercase then Uppercase(Numeral(k, h, t, u)) else Numeral(k, h, t, u);
            OrdinalOf(token, if uppercase then UpperRoman else LowerRoman) ==
            var n := 1000 * k + 100 * h + 10 * t + u; if n == 0 then None else Some(n)
  {
    RomanRoundTrip(k, h, t, u);
    NumeralLower(k, h, t, u);
    CaseRoundTrip(Numeral(k, h, t, u));
  }

  // ---------------------------------------------------------------- the level of a marker

  datatype Entry = Entry(kind: Kind, token: string, ordinal: int)

  datatype Assignment = Assignment(level: nat, kind: Kind, ordinal: int)

  function Tokens(stack: seq<Entry>): seq<string> { seq(|stack|, i requires 0 <= i < |stack| => stack[i].token) }

  /** An open paragraph has the kind prescribed for its level and its token's ordinal in that kind. */
  function EntryRule(regulation: bool): (nat, Entry) -> bool {
    (level: nat, e: Entry) => e.kind == KindForLevel(level, regulation) && OrdinalOf(e.token, e.kind) == Some(e.ordinal)
  }

  predicate AllEntries(stack: seq<Entry>, rule: (nat, Entry) -> bool) {
    forall l: nat :: l < |stack| ==> rule(l, stack[l])
  }

  predicate Prescribed(stack: seq<Entry>, regulation: bool) { AllEntries(stack, EntryRule(regulation)) }

  /** The ordinals of one token, by kind. */
  type Reading = Kind -> Option<int>

  function Read(token: string): Reading { (kind: Kind) => OrdinalOf(token, kind) }

  function AsChild(stack: seq<Entry>, read: Reading, regulation: bool): Option<Assignment> {
    var kind := KindForLevel(|stack|, regulation);
    match read(kind)
    case Some(ordinal) => Some(Assignment(|stack|, kind, ordinal))
    case None => None
  }

  /** The deepest of the levels below `n` at which the token is the next letter after the open one. */
  function AsNextLetter(stack: seq<Entry>, n: nat, read: Reading, alpha: Kind, regulation: bool): Option<Assignment>
    requires n <= |stack|
  {
    if n == 0 then None
    else if KindForLevel(n - 1, regulation) == alpha && read(alpha) == Some(stack[n - 1].ordinal + 1)
    then Some(Assignment(n - 1, alpha, stack[n - 1].ordinal + 1))
    else AsNextLetter(stack, n - 1, read, alpha, regulation)
  }

  /** The deepest of the levels below `n` at which the token advances the open ordinal. */
  function AsSibling(stack: seq<Entry>, n: nat, read: Reading, regulation: bool): Option<Assignment>
    requires n <= |stack|
  {
    if n == 0 then None
    else
      var kind := KindForLevel(n - 1, regulation);
      var ordinal := read(kind);
      if ordinal.Some? && ordinal.value > stack[n - 1].ordinal then Some(Assignment(n - 1, kind, ordinal.value))
      else AsSibling(stack, n - 1, read, regulation)
  }

  function OrElse<T>(first: Option<T>, second: Option<T>): Option<T> { if first.Some? then first else second }

  /** `preferChild`: the caller has a reason to open a child if the token can be read as one. */
  function AssignReading(stack: seq<Entry>, read: Reading, regulation: bool, preferChild: bool): Option<Assignment> {
    var child := AsChild(stack, read, regulation);
    var n := |stack|;
    if preferChild && child.Some? then child
    else
      var letter := match KindForLevel(n, regulation)
        case LowerRoman => OrElse(AsNextLetter(stack, n, read, LowerAlpha, regulation), child)
        case UpperRoman => OrElse(AsNextLetter(stack, n, read, UpperAlpha, regulation), child)
        case _ => None;
      OrElse(letter, OrElse(AsSibling(stack, n, read, regulation), child))
  }

  predicate ContinuesTarget(stack: seq<Entry>, token: string, target: seq<string>) {
    |stack| < |target| && Tokens(stack) == target[..|stack|] && token == target[|stack|]
  }

  function Assign(stack: seq<Entry>, token: string, regulation: bool, target: seq<string>,
                  preferTarget: bool, preferRoman: bool): Option<Assignment>
  {
    AssignReading(stack, Read(token), regulation,
                  preferRoman || (preferTarget && ContinuesTarget(stack, token, target)))
  }

  /** The assignment reads the token in the kind prescribed for its level, opens at most one new level,
      and at an open level strictly advances the ordinal there. */
  predicate AdvancesBy(a: Assignment, stack: seq<Entry>, read: Reading, regulation: bool) {
    && a.level <= |stack|
    && a.kind == KindForLevel(a.level, regulation)
    && read(a.kind) == Some(a.ordinal)
    && (a.level < |stack| ==> a.ordinal > stack[a.level].ordinal)
  }

  predicate Advances(a: Assignment, stack: seq<Entry>, token: string, regulation: bool) {
    AdvancesBy(a, stack, Read(token), regulation)
  }

  lemma {:induction false} NextLetterAdvances(stack: seq<Entry>, n: nat, read: Reading, alpha: Kind, regulation: bool)
    requires n <= |stack|
    ensures var a := AsNextLetter(stack, n, read, alpha, regulation);
            a.Some? ==> a.value.level < n && AdvancesBy(a.value, stack, read, regulation)
  {
    if n > 0 { NextLetterAdvances(stack, n - 1, read, alpha, regulation); }
  }

  lemma {:induction false} SiblingAdvances(stack: seq<Entry>, n: nat, read: Reading, regulation: bool)
    requires n <= |stack|
    ensures var a := AsSibling(stack, n, read, regulation);
            a.Some? ==> a.value.level < n && AdvancesBy(a.value, stack, read, regulation)
  {
    if n > 0 { SiblingAdvances(stack, n - 1, read, regulation); }
  }

  lemma ReadingAdvances(stack: seq<Entry>, read: Reading, regulation: bool, preferChild: bool)
    ensures var a := AssignReading(stack, read, regulation, preferChild);
            a.Some? ==> AdvancesBy(a.value, stack, read, regulation)
  {
    var n := |stack|;
    NextLetterAdvances(stack, n, read, LowerAlpha, regulation);
    NextLetterAdvances(stack, n, read, UpperAlpha, regulation);
    SiblingAdvances(stack, n, read, regulation);
  }

  /** Whatever the preferences, a marker only ever opens a child or advances an open level. */
  lemma AssignAdvances(stack: seq<Entry>, token: string, regulation: bool, target: seq<string>,
                       preferTarget: bool, preferRoman: bool)
    ensures var a := Assign(stack, token, regulation, target, preferTarget, preferRoman);
            a.Some? ==> Advances(a.value, stack, token, regulation)
  {
    ReadingAdvances(stack, Read(token), regulation,
                    preferRoman || (preferTarget && ContinuesTarget(stack, token, target)));
  }

  lemma {:induction false} SiblingFound(stack: seq<Entry>, n: nat, read: Reading, regulation: bool, a: Assignment)
    requires n <= |stack| && a.level < n && AdvancesBy(a, stack, read, regulation)
    ensures AsSibling(stack, n, read, regulation).Some?
  {
    if a.level < n - 1 { SiblingFound(stack, n - 1, read, regulation, a); }
  }

  lemma ReadingIsComplete(stack: seq<Entry>, read: Reading, regulation: bool, preferChild: bool, a: Assignment)
    requires AdvancesBy(a, stack, read, regulation)
    ensures AssignReading(stack, read, regulation, preferChild).Some?
  {
    if a.level < |stack| { SiblingFound(stack, |stack|, read, regulation, a); }
  }

  /** A marker that could open a child or advance an open level is never left unassigned. */
  lemma AssignIsComplete(stack: seq<Entry>, token: string, regulation: bool, target: seq<string>,
                         preferTarget: bool, preferRoman: bool, a: Assignment)
    requires Advances(a, stack, token, regulation)
    ensures Assign(stack, token, regulation, target, preferTarget, preferRoman).Some?
  {
    ReadingIsComplete(stack, Read(token), regulation,
                      preferRoman || (preferTarget && ContinuesTarget(stack, token, target)), a);
  }

  lemma EntriesPush(stack: seq<Entry>, level: nat, e: Entry, rule: (nat, Entry) -> bool)
    requires level <= |stack| && AllEntries(stack, rule) && rule(level, e)
    ensures AllEntries(stack[..level] + [e], rule)
  {
  }

  lemma PrescribedPush(stack: seq<Entry>, level: nat, e: Entry, regulation: bool)
    requires Prescribed(stack, regulation) && level <= |stack|
    requires e.kind == KindForLevel(level, regulation) && OrdinalOf(e.token, e.kind) == Some(e.ordinal)
    ensures Prescribed(stack[..level] + [e], regulation)
  {
    EntriesPush(stack, level, e, EntryRule(regulation));
  }

  lemma PrescribedAppend(stack: seq<Entry>, e: Entry, regulation: bool)
    requires Prescribed(stack, regulation)
    requires e.kind == KindForLevel(|stack|, regulation) && OrdinalOf(e.token, e.kind) == Some(e.ordinal)
    ensures Prescribed(stack + [e], regulation)
  {
    assert stack[..|stack|] == stack;
    PrescribedPush(stack, |stack|, e, regulation);
  }
}
