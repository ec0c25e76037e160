/**
 Well-nested text, described on its own: plain characters, escaped characters, apostrophes inside words and
 delimited groups, with a print.  The replay reads such a text as it is meant: a group opens one frame and
 closes it again, so a marker is enclosed exactly when it stands inside a group.
 */
module DelimiterNesting {
  import opened Common
  import opened DelimiterReplay

  datatype Delimiter =
    | Round | Square | Curly
    | DoubleQuotes | SingleQuotes | Guillemets | AngleQuotes
    | Straight(single: bool)
    | Ticks(n: nat)

  /** `Stray`: a closing bracket that closes nothing. */
  datatype Text =
    | End
    | Plain(c: char, rest: Text)
    | Escape(c: char, rest: Text)
    | Apostrophe(curly: bool, rest: Text)
    | Stray(c: char, rest: Text)
    | Group(d: Delimiter, inner: Text, rest: Text)

  // ---------------------------------------------------------------- printing

  function Opening(d: Delimiter): string {
    match d
    case Round => "("
    case Square => "["
    case Curly => "{"
    case DoubleQuotes => "\U{201C}"
    case SingleQuotes => "\U{2018}"
    case Guillemets => "\U{AB}"
    case AngleQuotes => "\U{2039}"
    case Straight(single) => if single then "\'" else "\""
    case Ticks(n) => seq(n, _ => '`')
  }

  function Closing(d: Delimiter): string {
    match d
    case Round => ")"
    case Square => "]"
    case Curly => "}"
    case DoubleQuotes => "\U{201D}"
    case SingleQuotes => "\U{2019}"
    case Guillemets => "\U{BB}"
    case AngleQuotes => "\U{203A}"
    case Straight(single) => if single then "\'" else "\""
    case Ticks(n) => seq(n, _ => '`')
  }

  function Print(t: Text): string {
    match t
    case End => []
    case Plain(c, rest) => [c] + Print(rest)
    case Escape(c, rest) => ['\\', c] + Print(rest)
    case Apostrophe(curly, rest) => [if curly then '\U{2019}' else '\''] + Print(rest)
    case Stray(c, rest) => [c] + Print(rest)
    case Group(d, inner, rest) => Opening(d) + (Print(inner) + (Closing(d) + Print(rest)))
  }

  /** How deep the groups go. */
  function Height(t: Text): nat {
    match t
    case End => 0
    case Plain(_, rest) => Height(rest)
    case Escape(_, rest) => Height(rest)
    case Apostrophe(_, rest) => Height(rest)
    case Stray(_, rest) => Height(rest)
    case Group(_, inner, rest) => if Height(inner) + 1 > Height(rest) then Height(inner) + 1 else Height(rest)
  }

  // ---------------------------------------------------------------- what makes a print unmistakable

  predicate IsClosingBracket(c: char) { c == ')' || c == ']' || c == '}' }

  /** Neither a backslash nor any delimiter. */
  predicate Ordinary(c: char) {
    && c != '\\' && c != '(' && c != '[' && c != '{' && !IsClosingBracket(c) && c != '`' && c != '\'' && c != '\"'
    && c != '\U{201C}' && c != '\U{201D}' && c != '\U{2018}' && c != '\U{2019}'
    && c != '\U{AB}' && c != '\U{BB}' && c != '\U{2039}' && c != '\U{203A}'
  }

  predicate TicksEnd(text: string, i: nat) { i < |text| ==> text[i] != '`' }

  /** A group may open at `i`: straight quotes must stand where only an opening quote can, and a run of
      backticks must be complete and not one that closes the group around. */
  predicate OpenClear(lex: Lexicon, text: string, i: nat, d: Delimiter, around: seq<Delimiter>)
    requires i < |text|
  {
    match d
    case Straight(single) =>
      !(single && InsideWord(lex, text, i)) && OpeningContext(lex, text, i) && !ClosingContext(lex, text, i)
    case Ticks(n) => n > 0 && TicksEnd(text, i + n) && (around == [] || around[|around| - 1] != d)
    case _ => true
  }

  /** The group opened at `i` may close at `j`: a quote that is not already inside one of its own must not look
      like an apostrophe or a measurement, and straight quotes must stand where only a closing one can. */
  predicate CloseClear(lex: Lexicon, text: string, i: nat, j: nat, d: Delimiter, around: seq<Delimiter>)
    requires j < |text|
  {
    match d
    case Straight(single) =>
      && !(single && InsideWord(lex, text, j)) && !OpeningContext(lex, text, j) && ClosingContext(lex, text, j)
      && (d in around || !lex.internalMark(text, j, i))
    case Ticks(n) => TicksEnd(text, j + n)
    case SingleQuotes => !InsideWord(lex, text, j) && (d in around || !lex.internalMark(text, j, i))
    case DoubleQuotes => d in around || !lex.internalMark(text, j, i)
    case Guillemets => d in around || !lex.internalMark(text, j, i)
    case AngleQuotes => d in around || !lex.internalMark(text, j, i)
    case _ => true
  }

  predicate Reads(text: string, i: nat, s: string) { i + |s| <= |text| && text[i..i + |s|] == s }

  /** Where the inside of a group at `i` begins, and where its closing delimiter stands. */
  function InnerAt(i: nat, t: Text): nat
    requires t.Group?
  {
    i + |Opening(t.d)|
  }

  function CloseAt(i: nat, t: Text): nat
    requires t.Group?
  {
    InnerAt(i, t) + |Print(t.inner)|
  }

  /** Where the rest stands. */
  function RestAt(i: nat, t: Text): nat
    requires !t.End?
  {
    if t.Group? then CloseAt(i, t) + |Closing(t.d)| else if t.Escape? then i + 2 else i + 1
  }

  /** The first piece is unmistakable. */
  predicate ClearHere(lex: Lexicon, text: string, i: nat, t: Text, around: seq<Delimiter>)
    requires !t.End? && RestAt(i, t) <= |text|
  {
    match t
    case Plain(c, _) => Ordinary(c)
    case Escape(_, _) => true
    case Apostrophe(_, _) => InsideWord(lex, text, i)
    case Stray(c, _) => IsClosingBracket(c) && forall d :: d in around ==> Closing(d) != [c]
    case Group(d, _, _) =>
      Opening(d) != [] && OpenClear(lex, text, i, d, around) && CloseClear(lex, text, i, CloseAt(i, t), d, around)
  }

  /** The print of `t`, standing at `i` inside the groups `around`, is unmistakable. */
  predicate Clear(lex: Lexicon, text: string, i: nat, t: Text, around: seq<Delimiter>)
    decreases t
  {
    t.End? ||
    (&& RestAt(i, t) <= |text| && ClearHere(lex, text, i, t, around)
     && (t.Group? ==> Clear(lex, text, InnerAt(i, t), t.inner, around + [t.d]))
     && Clear(lex, text, RestAt(i, t), t.rest, around))
  }

  lemma ReadsSplit(text: string, i: nat, a: string, b: string)
    requires Reads(text, i, a + b)
    ensures Reads(text, i, a) && Reads(text, i + |a|, b)
  {
    var s := text[i..i + |a + b|];
    assert s[..|a|] == a && s[|a|..] == b;
    assert text[i..i + |a|] == s[..|a|];
    assert text[i + |a|..i + |a| + |b|] == s[|a|..];
  }

  lemma ReadsFour(text: string, i: nat, a: string, b: string, c: string, d: string)
    requires Reads(text, i, a + (b + (c + d)))
    ensures Reads(text, i, a) && Reads(text, i + |a|, b) && Reads(text, i + |a| + |b|, c)
    ensures Reads(text, i + |a| + |b| + |c|, d)
  {
    ReadsSplit(text, i, a, b + (c + d));
    ReadsSplit(text, i + |a|, b, c + d);
    ReadsSplit(text, i + |a| + |b|, c, d);
  }

  lemma ReadsGroup(text: string, i: nat, t: Text)
    requires t.Group? && Reads(text, i, Print(t))
    ensures Reads(text, i, Opening(t.d)) && Reads(text, InnerAt(i, t), Print(t.inner))
    ensures Reads(text, CloseAt(i, t), Closing(t.d)) && Reads(text, RestAt(i, t), Print(t.rest))
    ensures i + |Print(t)| == RestAt(i, t) + |Print(t.rest)|
  {
    ReadsFour(text, i, Opening(t.d), Print(t.inner), Closing(t.d), Print(t.rest));
  }

  lemma ReadsOne(text: string, i: nat, c: char, s: string)
    requires Reads(text, i, [c] + s)
    ensures text[i] == c && Reads(text, i + 1, s)
  {
    ReadsSplit(text, i, [c], s);
    assert text[i..i + 1][0] == c;
  }

  // ---------------------------------------------------------------- quotes still to come

  /** How many more closing than opening quotes of the sort the text from `i` on has. */
  function Ahead(lex: Lexicon, text: string, i: nat, d: Delimiter): int {
    match d
    case DoubleQuotes => DirLeft(lex, text, i, '\U{201D}') - DirLeft(lex, text, i, '\U{201C}')
    case SingleQuotes => DirLeft(lex, text, i, '\U{2019}') - DirLeft(lex, text, i, '\U{2018}')
    case Guillemets => DirLeft(lex, text, i, '\U{BB}') - DirLeft(lex, text, i, '\U{AB}')
    case AngleQuotes => DirLeft(lex, text, i, '\U{203A}') - DirLeft(lex, text, i, '\U{2039}')
    case Straight(single) =>
      var c := if single then '\'' else '\"';
      ClosesLeft(lex, text, i, c) - OpensLeft(lex, text, i, c)
    case _ => 0
  }

  predicate IsQuoteSort(d: Delimiter) {
    d.DoubleQuotes? || d.SingleQuotes? || d.Guillemets? || d.AngleQuotes? || d.Straight?
  }

  /** What one character contributes. */
  function Turn(lex: Lexicon, text: string, i: nat, d: Delimiter): int
    requires i < |text|
  {
    match d
    case DoubleQuotes => Bit(DirEligible(lex, text, i, '\U{201D}')) - Bit(DirEligible(lex, text, i, '\U{201C}'))
    case SingleQuotes => Bit(DirEligible(lex, text, i, '\U{2019}')) - Bit(DirEligible(lex, text, i, '\U{2018}'))
    case Guillemets => Bit(DirEligible(lex, text, i, '\U{BB}')) - Bit(DirEligible(lex, text, i, '\U{AB}'))
    case AngleQuotes => Bit(DirEligible(lex, text, i, '\U{203A}')) - Bit(DirEligible(lex, text, i, '\U{2039}'))
    case Straight(single) =>
      var c := if single then '\'' else '\"';
      Bit(SymCloses(lex, text, i, c)) - Bit(SymOpens(lex, text, i, c))
    case _ => 0
  }

  lemma AheadTurns(lex: Lexicon, text: string, i: nat, d: Delimiter)
    requires i < |text|
    ensures Ahead(lex, text, i, d) == Turn(lex, text, i, d) + Ahead(lex, text, i + 1, d)
  {
  }

  /** Characters that are no quotes contribute nothing, nor do escaped ones and apostrophes inside words. */
  lemma NoTurn(lex: Lexicon, text: string, i: nat, d: Delimiter)
    requires i < |text|
    requires Ordinary(text[i]) || text[i] == '\\' || Escaped(text, i) || IsClosingBracket(text[i]) || text[i] == '`' ||
             ((text[i] == '\'' || text[i] == '\U{2019}') && InsideWord(lex, text, i)) ||
             text[i] == '(' || text[i] == '[' || text[i] == '{'
    ensures Turn(lex, text, i, d) == 0
  {
  }

  function Sign(d: Delimiter, open: bool): string { if open then Opening(d) else Closing(d) }

  lemma OpenTurn(lex: Lexicon, text: string, i: nat, d: Delimiter, around: seq<Delimiter>, e: Delimiter)
    requires i < |text| && !Escaped(text, i) && !d.Ticks? && text[i] == Opening(d)[0]
    requires OpenClear(lex, text, i, d, around)
    ensures Turn(lex, text, i, e) == if e == d && IsQuoteSort(d) then -1 else 0
  {
  }

  lemma CloseTurn(lex: Lexicon, text: string, i: nat, j: nat, d: Delimiter, around: seq<Delimiter>, e: Delimiter)
    requires j < |text| && !Escaped(text, j) && !d.Ticks? && text[j] == Closing(d)[0]
    requires CloseClear(lex, text, i, j, d, around)
    ensures Turn(lex, text, j, e) == if e == d && IsQuoteSort(d) then 1 else 0
  {
  }

  // ---------------------------------------------------------------- escapes and counts over a print

  lemma NotEscapedAfter(text: string, i: nat)
    requires i < |text| && text[i] != '\\'
    ensures !Escaped(text, i + 1)
  {
  }

  lemma EscapedPair(text: string, i: nat)
    requires i + 1 < |text| && text[i] == '\\' && !Escaped(text, i)
    ensures Escaped(text, i + 1) && !Escaped(text, i + 2)
  {
    assert BackslashRun(text, i + 1) == 1 + BackslashRun(text, i);
    if text[i + 1] == '\\' { assert BackslashRun(text, i + 2) == 1 + BackslashRun(text, i + 1); }
  }

  lemma TickAt(text: string, i: nat, n: nat, k: nat)
    requires Reads(text, i, Opening(Ticks(n))) && k < n
    ensures text[i + k] == '`'
  {
    assert text[i..i + n][k] == Opening(Ticks(n))[k];
  }

  lemma {:induction false} AheadOverTicks(lex: Lexicon, text: string, i: nat, n: nat, k: nat, e: Delimiter)
    requires Reads(text, i, Opening(Ticks(n))) && k <= n
    ensures Ahead(lex, text, i + k, e) == Ahead(lex, text, i + n, e)
    decreases n - k
  {
    if k < n {
      TickAt(text, i, n, k);
      AheadTurns(lex, text, i + k, e);
      NoTurn(lex, text, i + k, e);
      AheadOverTicks(lex, text, i, n, k + 1, e);
    }
  }

  function Weight(d: Delimiter, e: Delimiter): nat { if e == d && IsQuoteSort(d) then 1 else 0 }

  lemma OpenAhead(lex: Lexicon, text: string, i: nat, d: Delimiter, around: seq<Delimiter>, e: Delimiter)
    requires Opening(d) != [] && Reads(text, i, Opening(d)) && !Escaped(text, i) && OpenClear(lex, text, i, d, around)
    ensures Ahead(lex, text, i, e) == Ahead(lex, text, i + |Opening(d)|, e) - Weight(d, e)
    ensures !Escaped(text, i + |Opening(d)|)
  {
    if d.Ticks? {
      AheadOverTicks(lex, text, i, d.n, 0, e);
      TickAt(text, i, d.n, d.n - 1);
      NotEscapedAfter(text, i + d.n - 1);
    } else {
      assert text[i] == text[i..i + 1][0] == Opening(d)[0];
      AheadTurns(lex, text, i, e);
      OpenTurn(lex, text, i, d, around, e);
      NotEscapedAfter(text, i);
    }
  }

  lemma CloseAhead(lex: Lexicon, text: string, i: nat, j: nat, d: Delimiter, around: seq<Delimiter>, e: Delimiter)
    requires Closing(d) != [] && Reads(text, j, Closing(d)) && !Escaped(text, j)
    requires CloseClear(lex, text, i, j, d, around)
    ensures Ahead(lex, text, j, e) == Ahead(lex, text, j + |Closing(d)|, e) + Weight(d, e)
    ensures !Escaped(text, j + |Closing(d)|)
  {
    if d.Ticks? {
      AheadOverTicks(lex, text, j, d.n, 0, e);
      TickAt(text, j, d.n, d.n - 1);
      NotEscapedAfter(text, j + d.n - 1);
    } else {
      assert text[j] == text[j..j + 1][0] == Closing(d)[0];
      AheadTurns(lex, text, j, e);
      CloseTurn(lex, text, i, j, d, around, e);
      NotEscapedAfter(text, j);
    }
  }

  predicate IsLeaf(t: Text) { t.Plain? || t.Apostrophe? || t.Stray? }

  /** The character of a one-character piece. */
  function LeafChar(t: Text): char
    requires IsLeaf(t)
  {
    match t
    case Apostrophe(curly, _) => if curly then '\U{2019}' else '\''
    case Plain(c, _) => c
    case Stray(c, _) => c
  }

  lemma LeafReads(text: string, i: nat, t: Text)
    requires IsLeaf(t) && Reads(text, i, Print(t))
    ensures text[i] == LeafChar(t) && Reads(text, i + 1, Print(t.rest)) && |Print(t)| == 1 + |Print(t.rest)|
  {
    ReadsOne(text, i, LeafChar(t), Print(t.rest));
  }

  lemma PairReads(text: string, i: nat, t: Text)
    requires t.Escape? && Reads(text, i, Print(t))
    ensures i + 1 < |text| && text[i] == '\\' && Reads(text, i + 2, Print(t.rest))
    ensures |Print(t)| == 2 + |Print(t.rest)|
  {
    assert Print(t) == ['\\'] + ([t.c] + Print(t.rest));
    ReadsOne(text, i, '\\', [t.c] + Print(t.rest));
    ReadsOne(text, i + 1, t.c, Print(t.rest));
  }

  /** The rest of a printed text is printed where it stands. */
  lemma RestReads(text: string, i: nat, t: Text)
    requires !t.End? && Reads(text, i, Print(t))
    ensures Reads(text, RestAt(i, t), Print(t.rest))
    ensures RestAt(i, t) <= |text| && i + |Print(t)| == RestAt(i, t) + |Print(t.rest)|
  {
    if t.Group? { ReadsGroup(text, i, t); } else if t.Escape? { PairReads(text, i, t); } else { LeafReads(text, i, t); }
  }

  lemma LeafAhead(lex: Lexicon, text: string, i: nat, t: Text, around: seq<Delimiter>, e: Delimiter)
    requires IsLeaf(t) && Reads(text, i, Print(t)) && ClearHere(lex, text, i, t, around) && !Escaped(text, i)
    ensures !Escaped(text, i + 1) && Ahead(lex, text, i, e) == Ahead(lex, text, i + 1, e)
  {
    LeafReads(text, i, t);
    NotEscapedAfter(text, i);
    AheadTurns(lex, text, i, e);
    NoTurn(lex, text, i, e);
  }

  lemma PairAhead(lex: Lexicon, text: string, i: nat, t: Text, e: Delimiter)
    requires t.Escape? && Reads(text, i, Print(t)) && !Escaped(text, i)
    ensures i + 2 <= |text| && !Escaped(text, i + 2) && Ahead(lex, text, i, e) == Ahead(lex, text, i + 2, e)
  {
    PairReads(text, i, t);
    EscapedPair(text, i);
    AheadTurns(lex, text, i, e);
    NoTurn(lex, text, i, e);
    AheadTurns(lex, text, i + 1, e);
    NoTurn(lex, text, i + 1, e);
  }

  lemma GroupOpens(lex: Lexicon, text: string, i: nat, t: Text, around: seq<Delimiter>, e: Delimiter)
    requires t.Group? && Reads(text, i, Print(t)) && Opening(t.d) != [] && i < |text| && !Escaped(text, i)
    requires OpenClear(lex, text, i, t.d, around)
    ensures Reads(text, InnerAt(i, t), Print(t.inner)) && !Escaped(text, InnerAt(i, t))
    ensures Ahead(lex, text, i, e) == Ahead(lex, text, InnerAt(i, t), e) - Weight(t.d, e)
  {
    ReadsGroup(text, i, t);
    OpenAhead(lex, text, i, t.d, around, e);
  }

  lemma GroupCloses(lex: Lexicon, text: string, i: nat, t: Text, around: seq<Delimiter>, e: Delimiter)
    requires t.Group? && Reads(text, i, Print(t)) && Closing(t.d) != [] && CloseAt(i, t) < |text|
    requires !Escaped(text, CloseAt(i, t)) && CloseClear(lex, text, i, CloseAt(i, t), t.d, around)
    ensures RestAt(i, t) <= |text| && !Escaped(text, RestAt(i, t))
    ensures Ahead(lex, text, CloseAt(i, t), e) == Ahead(lex, text, RestAt(i, t), e) + Weight(t.d, e)
  {
    ReadsGroup(text, i, t);
    CloseAhead(lex, text, i, CloseAt(i, t), t.d, around, e);
  }

  lemma GroupIsClear(lex: Lexicon, text: string, i: nat, t: Text, around: seq<Delimiter>)
    requires t.Group? && RestAt(i, t) <= |text| && ClearHere(lex, text, i, t, around)
    ensures Opening(t.d) != [] && Closing(t.d) != [] && i < |text| && CloseAt(i, t) < |text|
    ensures OpenClear(lex, text, i, t.d, around) && CloseClear(lex, text, i, CloseAt(i, t), t.d, around)
  {
    assert |Opening(t.d)| == |Closing(t.d)|;
  }

  /** A well-nested text stands at `i`. */
  predicate Stands(lex: Lexicon, text: string, i: nat, t: Text, around: seq<Delimiter>) {
    Reads(text, i, Print(t)) && Clear(lex, text, i, t, around) && !Escaped(text, i)
  }

  /** A well-nested text closes as many quotes as it opens, and leaves nothing escaped. */
  lemma {:induction false} AheadSame(lex: Lexicon, text: string, i: nat, t: Text, around: seq<Delimiter>, e: Delimiter)
    requires Stands(lex, text, i, t, around)
    ensures !Escaped(text, i + |Print(t)|)
    ensures Ahead(lex, text, i, e) == Ahead(lex, text, i + |Print(t)|, e)
    decreases t, 1
  {
    if !t.End? {
      RestReads(text, i, t);
      if t.Group? {
        GroupAhead(lex, text, i, t, around, e);
      } else if t.Escape? {
        PairAhead(lex, text, i, t, e);
      } else {
        LeafAhead(lex, text, i, t, around, e);
      }
      AheadSame(lex, text, RestAt(i, t), t.rest, around, e);
    }
  }

  lemma {:induction false} GroupAhead(lex: Lexicon, text: string, i: nat, t: Text, around: seq<Delimiter>, e: Delimiter)
    requires t.Group? && Reads(text, i, Print(t)) && RestAt(i, t) <= |text| && ClearHere(lex, text, i, t, around)
    requires Clear(lex, text, InnerAt(i, t), t.inner, around + [t.d]) && !Escaped(text, i)
    ensures !Escaped(text, RestAt(i, t)) && Ahead(lex, text, i, e) == Ahead(lex, text, RestAt(i, t), e)
    decreases t, 0
  {
    GroupIsClear(lex, text, i, t, around);
    GroupOpens(lex, text, i, t, around, e);
    AheadSame(lex, text, InnerAt(i, t), t.inner, around + [t.d], e);
    GroupCloses(lex, text, i, t, around, e);
  }
}
