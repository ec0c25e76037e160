/**
 Delimiter replay of the corpus resolver.

 `Reach` replays the delimiter stack from offset zero up to one marker, with every
 aggregate (frames of a pair, frames with a closing token, run at the top, eligible
 tokens still unread) obtained by a plain scan.  `DelimiterIndex` is the one-pass form
 that keeps those aggregates incrementally and serves a whole batch of markers.
 */
module DelimiterReplay {
  import opened Common

  type Token = string

  const MAX_MARKERS: nat := 4096
  const MAX_TOKENS: nat := 1_000_000
  const MAX_DEPTH: nat := 256

  datatype Continuation = Line | ColonSentence

  datatype Frame = Frame(opening: Token, closing: Token, offset: nat, continuation: Option<Continuation>) {
    function Pair(): (Token, Token) { (opening, closing) }
  }

  /** Character classes and regex tests, left uninterpreted: any functions of the text and offsets. */
  datatype Lexicon = Lexicon(
    isAlnum: char -> bool,
    isSpace: char -> bool,
    continuation: (string, nat, nat) -> Option<Continuation>,
    terminalClose: (string, nat, Continuation) -> bool,
    internalMark: (string, nat, nat) -> bool)

  // ---------------------------------------------------------------- characters

  predicate IsDirOpen(c: char) { c == '\U{201C}' || c == '\U{2018}' || c == '\U{AB}' || c == '\U{2039}' }

  function DirCloser(c: char): char
    requires IsDirOpen(c)
  {
    if c == '\U{201C}' then '\U{201D}' else if c == '\U{2018}' then '\U{2019}'
    else if c == '\U{AB}' then '\U{BB}' else '\U{203A}'
  }

  predicate IsDirClose(c: char) { c == '\U{201D}' || c == '\U{2019}' || c == '\U{BB}' || c == '\U{203A}' }

  function DirOpener(c: char): char
    requires IsDirClose(c)
  {
    if c == '\U{201D}' then '\U{201C}' else if c == '\U{2019}' then '\U{2018}'
    else if c == '\U{BB}' then '\U{AB}' else '\U{2039}'
  }

  predicate IsDirectional(c: char) { IsDirOpen(c) || IsDirClose(c) }

  predicate IsSymmetric(c: char) { c == DOUBLE_QUOTE || c == SINGLE_QUOTE }

  predicate IsBracketOpen(c: char) { c == '(' || c == '[' || c == '\U{7B}' }

  function BracketCloser(c: char): char
    requires IsBracketOpen(c)
  {
    if c == '(' then ')' else if c == '[' then ']' else '\U{7D}'
  }

  predicate IsBracketClose(c: char) { c == ')' || c == ']' || c == '\U{7D}' }

  predicate IsDelimiter(c: char) {
    IsDirectional(c) || IsSymmetric(c) || IsBracketOpen(c) || IsBracketClose(c) || c == '`'
  }

  // ---------------------------------------------------------------- lexical context of an offset

  function BackslashRun(text: string, i: nat): (r: nat)
    requires i <= |text|
    ensures r <= i
  {
    if i > 0 && text[i - 1] == ESCAPE then 1 + BackslashRun(text, i - 1) else 0
  }

  predicate Escaped(text: string, i: nat)
    requires i <= |text|
  {
    BackslashRun(text, i) % 2 == 1
  }

  function Previous(text: string, i: nat): Option<char>
    requires i <= |text|
  {
    var j := i - BackslashRun(text, i) - 1;
    if j >= 0 then Some(text[j]) else None
  }

  function Following(text: string, i: nat): Option<char>
    requires i < |text|
  {
    if i + 1 < |text| then Some(text[i + 1]) else None
  }

  predicate InsideWord(lex: Lexicon, text: string, i: nat)
    requires i < |text|
  {
    var p, f := Previous(text, i), Following(text, i);
    p.Some? && lex.isAlnum(p.value) && f.Some? && lex.isAlnum(f.value)
  }

  predicate IsDash(c: char) { c == '\U{2014}' || c == '\U{2013}' || c == '-' }

  predicate OpensAfter(c: char) { IsBracketOpen(c) || c == '<' || c == ':' || c == ';' || IsDash(c) }

  predicate ClosesBefore(c: char) {
    c == '.' || c == ',' || c == ';' || c == ':' || c == '!' || c == '?' || IsBracketClose(c) || c == '>' || IsDash(c)
  }

  predicate OpeningContext(lex: Lexicon, text: string, i: nat)
    requires i < |text|
  {
    var p, f := Previous(text, i), Following(text, i);
    (p.None? || lex.isSpace(p.value) || OpensAfter(p.value)) && f.Some? && !lex.isSpace(f.value)
  }

  predicate ClosingContext(lex: Lexicon, text: string, i: nat)
    requires i < |text|
  {
    var p, f := Previous(text, i), Following(text, i);
    p.Some? && !lex.isSpace(p.value) &&
    (f.None? || lex.isSpace(f.value) || ClosesBefore(f.value))
  }

  /** A directional quote that is neither escaped nor an apostrophe inside a word. */
  predicate DirEligible(lex: Lexicon, text: string, i: nat, c: char)
    requires i < |text|
  {
    text[i] == c && !Escaped(text, i) && !(c == '\U{2019}' && InsideWord(lex, text, i))
  }

  /** A straight quote that is neither escaped nor an apostrophe inside a word. */
  predicate SymEligible(lex: Lexicon, text: string, i: nat, c: char)
    requires i < |text|
  {
    text[i] == c && !Escaped(text, i) && !(c == SINGLE_QUOTE && InsideWord(lex, text, i))
  }

  predicate SymOpens(lex: Lexicon, text: string, i: nat, c: char)
    requires i < |text|
  {
    SymEligible(lex, text, i, c) && OpeningContext(lex, text, i)
  }

  predicate SymCloses(lex: Lexicon, text: string, i: nat, c: char)
    requires i < |text|
  {
    SymEligible(lex, text, i, c) && !OpeningContext(lex, text, i) && ClosingContext(lex, text, i)
  }

  function Bit(b: bool): nat { if b then 1 else 0 }

  /** Eligible directional tokens `c` in the unread suffix `text[i..]`. */
  function DirLeft(lex: Lexicon, text: string, i: nat, c: char): nat
    decreases |text| - i
  {
    if i >= |text| then 0 else Bit(DirEligible(lex, text, i, c)) + DirLeft(lex, text, i + 1, c)
  }

  function OpensLeft(lex: Lexicon, text: string, i: nat, c: char): nat
    decreases |text| - i
  {
    if i >= |text| then 0 else Bit(SymOpens(lex, text, i, c)) + OpensLeft(lex, text, i + 1, c)
  }

  function ClosesLeft(lex: Lexicon, text: string, i: nat, c: char): nat
    decreases |text| - i
  {
    if i >= |text| then 0 else Bit(SymCloses(lex, text, i, c)) + ClosesLeft(lex, text, i + 1, c)
  }

  /** Unescaped delimiter characters of `text[i..]`. */
  function TokensLeft(text: string, i: nat): nat
    decreases |text| - i
  {
    if i >= |text| then 0 else Bit(IsDelimiter(text[i]) && !Escaped(text, i)) + TokensLeft(text, i + 1)
  }

  // ---------------------------------------------------------------- scans of the stack

  function PairCount(stack: seq<Frame>, pair: (Token, Token)): nat
  {
    if stack == [] then 0
    else PairCount(stack[..|stack| - 1], pair) + Bit(stack[|stack| - 1].Pair() == pair)
  }

  function ClosingCount(stack: seq<Frame>, closing: Token): nat
  {
    if stack == [] then 0
    else ClosingCount(stack[..|stack| - 1], closing) + Bit(stack[|stack| - 1].closing == closing)
  }

  /** Number of frames at the top of the stack that share the top frame's pair. */
  function TopRun(stack: seq<Frame>): (r: nat)
    ensures r <= |stack|
  {
    var n := |stack|;
    if n == 0 then 0
    else if n >= 2 && stack[n - 2].Pair() == stack[n - 1].Pair() then 1 + TopRun(stack[..n - 1])
    else 1
  }

  // ---------------------------------------------------------------- one replay step, by scanning

  datatype Scan = Scan(stack: seq<Frame>, malformed: bool)

  datatype Step = Next(index: nat, scan: Scan) | TooDeep

  function Top(stack: seq<Frame>): Frame
    requires stack != []
  {
    stack[|stack| - 1]
  }

  function Pushed(st: Scan, opening: Token, closing: Token, i: nat, k: Option<Continuation>, next: nat): Step
  {
    if |st.stack| >= MAX_DEPTH then TooDeep
    else Next(next, st.(stack := st.stack + [Frame(opening, closing, i, k)]))
  }

  function Popped(st: Scan): Scan
    requires st.stack != []
  {
    st.(stack := st.stack[..|st.stack| - 1])
  }

  /** First offset after `i` that does not hold a backtick. */
  function RunEnd(text: string, i: nat): (e: nat)
    requires i < |text|
    ensures i < e <= |text|
    ensures forall k :: i < k < e ==> text[k] == '`'
    ensures e < |text| ==> text[e] != '`'
    decreases |text| - i
  {
    if i + 1 < |text| && text[i + 1] == '`' then RunEnd(text, i + 1) else i + 1
  }

  function BacktickStep(text: string, i: nat, st: Scan): Step
    requires i < |text|
  {
    var e := RunEnd(text, i);
    var token := text[i..e];
    if st.stack != [] && Top(st.stack).closing == token then Next(e, Popped(st))
    else Pushed(st, token, token, i, None, e)
  }

  function ContinuationAt(lex: Lexicon, text: string, i: nat, stack: seq<Frame>): Option<Continuation>
    requires i < |text| && IsDirOpen(text[i])
  {
    if stack == [] || Top(stack).Pair() != ([text[i]], [DirCloser(text[i])]) then None
    else lex.continuation(text, i, Top(stack).offset)
  }

  /** Frames popped in bulk after a terminal close, beyond the frame that the close itself pops. */
  function Unmatched(stack: seq<Frame>, pair: (Token, Token), surplus: int): (u: nat)
    ensures u <= |stack|
  {
    var same := if stack != [] && Top(stack).Pair() == pair then TopRun(stack) else 0;
    var future := if surplus > 0 then surplus else 0;
    if same > future then same - future else 0
  }

  /** The stack once the frame closed at `i`, and on a terminal close its unmatched run, are gone. */
  function AfterClose(lex: Lexicon, text: string, i: nat, stack: seq<Frame>, pair: (Token, Token), surplus: int):
    (r: seq<Frame>)
    requires stack != []
    ensures |r| < |stack|
  {
    var frame, rest := Top(stack), stack[..|stack| - 1];
    var drop :=
      if frame.opening == pair.0 && frame.continuation.Some? && lex.terminalClose(text, i, frame.continuation.value)
      then Unmatched(rest, pair, surplus) else 0;
    rest[..|rest| - drop]
  }

  /** The stack after a directional close of the top frame; the last frame of its pair stays when a
      later close can match it or the mark reads as an apostrophe or measurement. */
  function AfterMatchingClose(lex: Lexicon, text: string, i: nat, stack: seq<Frame>, pair: (Token, Token),
                              surplus: int): (r: seq<Frame>)
    requires stack != []
    ensures |r| <= |stack|
  {
    if PairCount(stack, pair) == 1 && (surplus >= 1 || lex.internalMark(text, i, Top(stack).offset)) then stack
    else AfterClose(lex, text, i, stack, pair, surplus)
  }

  function DirCloseStep(lex: Lexicon, text: string, i: nat, st: Scan): Step
    requires i < |text| && IsDirClose(text[i])
  {
    var c, o := text[i], DirOpener(text[i]);
    var surplus := DirLeft(lex, text, i + 1, c) - DirLeft(lex, text, i + 1, o);
    if c == '\U{2019}' && InsideWord(lex, text, i) then Next(i + 1, st)
    else if st.stack != [] && Top(st.stack).closing == [c] then
      Next(i + 1, st.(stack := AfterMatchingClose(lex, text, i, st.stack, ([o], [c]), surplus)))
    else if ClosingCount(st.stack, [c]) > 0 then Next(i + 1, st.(malformed := true))
    else Next(i + 1, st)
  }

  function SymmetricStep(lex: Lexicon, text: string, i: nat, st: Scan): Step
    requires i < |text| && IsSymmetric(text[i])
  {
    var c := text[i];
    var opens, closes := OpeningContext(lex, text, i), ClosingContext(lex, text, i);
    if c == SINGLE_QUOTE && InsideWord(lex, text, i) then Next(i + 1, st)
    else if st.stack != [] && Top(st.stack).closing == [c] then
      var surplus := ClosesLeft(lex, text, i + 1, c) - OpensLeft(lex, text, i + 1, c);
      if opens && !closes then Pushed(st, [c], [c], i, None, i + 1)
      else if closes && PairCount(st.stack, ([c], [c])) == 1 &&
              (surplus >= 1 || lex.internalMark(text, i, Top(st.stack).offset))
      then Next(i + 1, st)
      else Next(i + 1, Popped(st))
    else if closes && ClosingCount(st.stack, [c]) > 0 then Next(i + 1, st.(malformed := true))
    else if opens then Pushed(st, [c], [c], i, None, i + 1)
    else Next(i + 1, st)
  }

  function BracketCloseStep(text: string, i: nat, st: Scan): Step
    requires i < |text|
  {
    if st.stack != [] && Top(st.stack).closing == [text[i]] then Next(i + 1, Popped(st))
    else if ClosingCount(st.stack, [text[i]]) > 0 then Next(i + 1, st.(malformed := true))
    else Next(i + 1, st)
  }

  function StepAt(lex: Lexicon, text: string, i: nat, st: Scan): (r: Step)
    requires i < |text|
    ensures r.Next? ==> i < r.index <= |text|
    ensures r.Next? && |st.stack| <= MAX_DEPTH ==> |r.scan.stack| <= MAX_DEPTH
    ensures r.Next? ==> r.index == if text[i] == '`' && !Escaped(text, i) then RunEnd(text, i) else i + 1
  {
    var c := text[i];
    if c == ESCAPE || Escaped(text, i) then Next(i + 1, st)
    else if c == '`' then BacktickStep(text, i, st)
    else if IsDirOpen(c) then Pushed(st, [c], [DirCloser(c)], i, ContinuationAt(lex, text, i, st.stack), i + 1)
    else if IsDirClose(c) then DirCloseStep(lex, text, i, st)
    else if IsSymmetric(c) then SymmetricStep(lex, text, i, st)
    else if IsBracketOpen(c) then Pushed(st, [c], [BracketCloser(c)], i, None, i + 1)
    else if IsBracketClose(c) then BracketCloseStep(text, i, st)
    else Next(i + 1, st)
  }

  lemma {:induction false} TopRunIsUniform(stack: seq<Frame>)
    ensures forall k :: |stack| - TopRun(stack) <= k < |stack| ==> stack[k].Pair() == Top(stack).Pair()
  {
    if |stack| >= 2 && stack[|stack| - 2].Pair() == stack[|stack| - 1].Pair() {
      TopRunIsUniform(stack[..|stack| - 1]);
    }
  }

  /** The bulk pop stays within the frames of the closed pair. */
  lemma UnmatchedIsUniform(stack: seq<Frame>, pair: (Token, Token), surplus: int)
    ensures forall k :: |stack| - Unmatched(stack, pair, surplus) <= k < |stack| ==> stack[k].Pair() == pair
  {
    TopRunIsUniform(stack);
  }

  // ---------------------------------------------------------------- replay of one marker from offset zero

  datatype Arrival = At(scan: Scan) | Skipped | DepthExceeded

  /** The replay state when offset `m` is reached from offset `i`, if it is reached at all. */
  function Reach(lex: Lexicon, text: string, i: nat, st: Scan, m: nat): Arrival
    requires m < |text|
    decreases if i <= m then m - i else 0
  {
    if i == m then At(st)
    else if i > m then Skipped
    else match StepAt(lex, text, i, st)
      case TooDeep => DepthExceeded
      case Next(j, st') => Reach(lex, text, j, st', m)
  }

  const EMPTY := Scan([], false)

  predicate EditorialBracketOnly(text: string, m: nat, st: Scan)
    requires m < |text|
  {
    !st.malformed && |st.stack| == 1 && m >= 1 && st.stack[0] == Frame("[", "]", m - 1, None) &&
    (m < 2 || text[m - 2] == '\n')
  }

  predicate Encloses(text: string, m: nat, st: Scan)
    requires m < |text|
  {
    (st.malformed || st.stack != []) && !EditorialBracketOnly(text, m, st)
  }

  predicate EnclosedFromZero(lex: Lexicon, text: string, m: nat)
    requires m < |text|
  {
    var a := Reach(lex, text, 0, EMPTY, m);
    a.At? && Encloses(text, m, a.scan)
  }

  // ---------------------------------------------------------------- the batch loop, by scanning

  datatype Outcome = Done(enclosed: set<int>) | Exceeded

  function Mark(text: string, i: nat, st: Scan): set<int>
    requires i < |text|
  {
    if Encloses(text, i, st) then {i as int} else {}
  }

  function Batch(lex: Lexicon, text: string, i: nat, st: Scan, starts: seq<int>): Outcome
    requires i <= |text|
    decreases |text| - i
  {
    if i == |text| then Done({})
    else
      var hit := starts != [] && starts[0] == i;
      var rest := if hit then starts[1..] else starts;
      var here := if hit then Mark(text, i, st) else {};
      if rest == [] then Done(here)
      else match StepAt(lex, text, i, st)
        case TooDeep => Exceeded
        case Next(j, st') =>
          var later := Batch(lex, text, j, st', rest);
          if later.Done? then Done(here + later.enclosed) else Exceeded
  }

  predicate Ascending(starts: seq<int>) {
    forall k, l :: 0 <= k < l < |starts| ==> starts[k] < starts[l]
  }

  /** Offset `m` lies strictly inside a run of backticks that the replay consumes in one step. */
  predicate InsideRun(text: string, m: nat)
    requires m < |text|
  {
    m > 0 && text[m] == '`' && text[m - 1] == '`' && !Escaped(text, m - 1)
  }

  ghost predicate Unblocked(text: string, starts: seq<int>, m: int) {
    forall s :: s in starts && 0 <= s <= m && s < |text| ==> !InsideRun(text, s)
  }

  // ---------------------------------------------------------------- batch against single replay

  lemma BackticksNotEscaped(text: string, i: nat, k: nat)
    requires i < k < |text|
    requires text[i] == '`' && !Escaped(text, i)
    requires forall l :: i < l <= k ==> text[l] == '`'
    ensures InsideRun(text, k)
  {
    assert BackslashRun(text, k) == 0;
    if k - 1 > i { assert BackslashRun(text, k - 1) == 0; }
  }

  lemma LandsOutsideRun(lex: Lexicon, text: string, i: nat, st: Scan)
    requires i < |text|
    ensures var r := StepAt(lex, text, i, st);
            r.Next? ==>
              && (r.index < |text| ==> !InsideRun(text, r.index))
              && (forall k :: i < k < r.index ==> InsideRun(text, k))
  {
    var r := StepAt(lex, text, i, st);
    if r.Next? && text[i] == '`' && !Escaped(text, i) {
      forall k | i < k < r.index ensures InsideRun(text, k) { BackticksNotEscaped(text, i, k); }
    }
  }

  /** A replay misses exactly the offsets inside a backtick run. */
  lemma {:induction false} SkippedIffInsideRun(lex: Lexicon, text: string, i: nat, st: Scan, m: nat)
    requires i <= m < |text|
    requires !InsideRun(text, i)
    ensures var a := Reach(lex, text, i, st, m);
            (a.Skipped? ==> InsideRun(text, m)) && (a.At? ==> !InsideRun(text, m))
    decreases m - i
  {
    if i < m {
      LandsOutsideRun(lex, text, i, st);
      var r := StepAt(lex, text, i, st);
      if r.Next? && r.index <= m { SkippedIffInsideRun(lex, text, r.index, r.scan, m); }
    }
  }

  /** No batch result contains an offset that is not one of its starts, at or after the loop index. */
  lemma BatchWithin(lex: Lexicon, text: string, i: nat, st: Scan, starts: seq<int>)
    requires i <= |text|
    ensures var b := Batch(lex, text, i, st, starts);
            b.Done? ==> forall s :: s in b.enclosed ==> s in starts && i <= s < |text|
  {
    var b := Batch(lex, text, i, st, starts);
    if b.Done? {
      forall s | s in b.enclosed ensures s in starts && i <= s < |text| {
        ReportedIsSupplied(lex, text, i, st, starts, s);
      }
    }
  }

  lemma {:induction false} ReportedIsSupplied(lex: Lexicon, text: string, i: nat, st: Scan, starts: seq<int>, s: int)
    requires i <= |text| && Batch(lex, text, i, st, starts).Done? && s in Batch(lex, text, i, st, starts).enclosed
    ensures s in starts && i <= s < |text|
    decreases |text| - i
  {
    var rest := if starts != [] && starts[0] == i then starts[1..] else starts;
    var r := StepAt(lex, text, i, st);
    if rest != [] && r.Next? && s in Batch(lex, text, r.index, r.scan, rest).enclosed {
      ReportedIsSupplied(lex, text, r.index, r.scan, rest, s);
    }
  }

  /** Once the pending start lies behind the loop index, nothing more is ever reported. */
  lemma {:induction false} StuckReportsNothing(lex: Lexicon, text: string, i: nat, st: Scan, starts: seq<int>)
    requires i <= |text| && starts != [] && starts[0] < i
    ensures var b := Batch(lex, text, i, st, starts); b.Done? ==> b.enclosed == {}
    decreases |text| - i
  {
    if i < |text| {
      var r := StepAt(lex, text, i, st);
      if r.Next? { StuckReportsNothing(lex, text, r.index, r.scan, starts); }
    }
  }

  lemma HitReported(lex: Lexicon, text: string, i: nat, st: Scan, starts: seq<int>)
    requires i < |text| && starts != [] && starts[0] == i && Ascending(starts)
    requires Batch(lex, text, i, st, starts).Done?
    ensures i in Batch(lex, text, i, st, starts).enclosed <==> Encloses(text, i, st)
  {
    var rest := starts[1..];
    var r := StepAt(lex, text, i, st);
    if rest != [] && r.Next? { BatchWithin(lex, text, r.index, r.scan, rest); }
  }

  lemma MissedHere(lex: Lexicon, text: string, i: nat, st: Scan, starts: seq<int>, m: int)
    requires i < |text| && m in starts && m != i && Batch(lex, text, i, st, starts).Done?
    ensures var rest := if starts[0] == i then starts[1..] else starts;
            var r := StepAt(lex, text, i, st);
            && m in rest && r.Next?
            && var later := Batch(lex, text, r.index, r.scan, rest);
               later.Done? && (m in Batch(lex, text, i, st, starts).enclosed <==> m in later.enclosed)
  {
  }

  lemma UnblockedRest(text: string, i: nat, starts: seq<int>, m: int)
    requires i < |text| && !InsideRun(text, i) && m in starts && m != i
    requires Ascending(starts) && i <= starts[0]
    ensures var rest := if starts[0] == i then starts[1..] else starts;
            && m in rest && i < rest[0] <= m && Ascending(rest) && rest[|rest| - 1] == starts[|starts| - 1]
            && (Unblocked(text, starts, m) <==> Unblocked(text, rest, m))
  {
    var rest := if starts[0] == i then starts[1..] else starts;
    assert forall s :: s in starts ==> s == i || s in rest;
  }

  /** The batch loop from any point on: it reports `m` iff no start up to `m` is inside a backtick
      run and the replay that only watches `m` finds it enclosed. */
  lemma {:induction false} BatchRefinesReach(lex: Lexicon, text: string, i: nat, st: Scan, starts: seq<int>, m: int)
    requires i < |text| && !InsideRun(text, i)
    requires Ascending(starts) && m in starts
    requires i <= starts[0] && starts[|starts| - 1] < |text|
    requires Batch(lex, text, i, st, starts).Done?
    ensures i <= m < |text|
    ensures !Reach(lex, text, i, st, m).DepthExceeded? || !Unblocked(text, starts, m)
    ensures m in Batch(lex, text, i, st, starts).enclosed <==>
              && Unblocked(text, starts, m)
              && var a := Reach(lex, text, i, st, m); a.At? && Encloses(text, m, a.scan)
    decreases |text| - i
  {
    if m == i {
      HitReported(lex, text, i, st, starts);
    } else {
      MissedHere(lex, text, i, st, starts, m);
      var rest := if starts[0] == i then starts[1..] else starts;
      var r := StepAt(lex, text, i, st);
      LandsOutsideRun(lex, text, i, st);
      UnblockedRest(text, i, starts, m);
      if r.index == |text| || rest[0] < r.index {
        StuckOrDone(lex, text, r.index, r.scan, rest);
        assert rest[0] in rest && InsideRun(text, rest[0]);
      } else {
        BatchRefinesReach(lex, text, r.index, r.scan, rest, m);
      }
    }
  }

  lemma StuckOrDone(lex: Lexicon, text: string, i: nat, st: Scan, starts: seq<int>)
    requires i <= |text| && starts != [] && (i == |text| || starts[0] < i)
    ensures var b := Batch(lex, text, i, st, starts); b.Done? ==> b.enclosed == {}
  {
    if i < |text| { StuckReportsNothing(lex, text, i, st, starts); }
  }

  // ---------------------------------------------------------------- the whole call

  datatype ReplayError = TooManyMarkers | Unordered | OutsideText | TooManyTokens | NestingTooDeep

  datatype Result = Enclosed(starts: set<int>) | Rejected(error: ReplayError)

  predicate NonDescending(starts: seq<int>) {
    forall k :: 1 <= k < |starts| ==> starts[k - 1] <= starts[k]
  }

  function Distinct(starts: seq<int>): seq<int>
  {
    var n := |starts|;
    if n == 0 then []
    else if n >= 2 && starts[n - 2] == starts[n - 1] then Distinct(starts[..n - 1])
    else Distinct(starts[..n - 1]) + [starts[n - 1]]
  }

  function EnclosedMarkers(lex: Lexicon, text: string, starts: seq<int>): Result
  {
    var n := |starts|;
    if !NonDescending(starts[..if n < MAX_MARKERS then n else MAX_MARKERS]) then Rejected(Unordered)
    else if n > MAX_MARKERS then Rejected(TooManyMarkers)
    else if n == 0 then Enclosed({})
    else if starts[0] < 0 || starts[n - 1] >= |text| then Rejected(OutsideText)
    else if TokensLeft(text, 0) > MAX_TOKENS then Rejected(TooManyTokens)
    else match Batch(lex, text, 0, EMPTY, Distinct(starts))
      case Exceeded => Rejected(NestingTooDeep)
      case Done(enclosed) => Enclosed(enclosed)
  }

  /** Replay of a single marker, as `_marker_is_within_quote_or_bracket` asks for it. */
  function Alone(lex: Lexicon, text: string, m: int): Result { EnclosedMarkers(lex, text, [m]) }

  lemma {:induction false} DistinctAscends(starts: seq<int>)
    requires NonDescending(starts)
    ensures var d := Distinct(starts);
            && Ascending(d) && (forall s :: s in d <==> s in starts) && |d| <= |starts|
            && (starts != [] ==> d != [] && d[0] == starts[0] && d[|d| - 1] == starts[|starts| - 1])
  {
    var n := |starts|;
    if n > 0 {
      var init, d := starts[..n - 1], Distinct(starts[..n - 1]);
      DistinctAscends(init);
      assert forall s :: s in starts <==> s in init || s == starts[n - 1];
      if n >= 2 && init[n - 2] != starts[n - 1] {
        assert forall k :: 0 <= k < |d| ==> d[k] <= d[|d| - 1];
      }
    }
  }

  /** Watching one marker never goes deeper than the replay that reaches it. */
  lemma {:induction false} ReachedAlone(lex: Lexicon, text: string, i: nat, st: Scan, m: nat)
    requires i <= m < |text|
    requires Reach(lex, text, i, st, m).At?
    ensures Batch(lex, text, i, st, [m]).Done?
    decreases m - i
  {
    if i < m {
      var r := StepAt(lex, text, i, st);
      ReachedAlone(lex, text, r.index, r.scan, m);
    }
  }

  lemma AloneIsBatch(lex: Lexicon, text: string, m: nat)
    requires m < |text| && TokensLeft(text, 0) <= MAX_TOKENS
    requires Batch(lex, text, 0, EMPTY, [m]).Done?
    ensures Alone(lex, text, m) == Enclosed(Batch(lex, text, 0, EMPTY, [m]).enclosed)
  {
    assert [m as int][..1] == [m];
    assert Distinct([m]) == [m];
  }

  lemma AloneIsReach(lex: Lexicon, text: string, m: nat)
    requires m < |text| && !InsideRun(text, m) && TokensLeft(text, 0) <= MAX_TOKENS
    requires !Reach(lex, text, 0, EMPTY, m).DepthExceeded?
    ensures Alone(lex, text, m) == Enclosed(if EnclosedFromZero(lex, text, m) then {m as int} else {})
  {
    SkippedIffInsideRun(lex, text, 0, EMPTY, m);
    ReachedAlone(lex, text, 0, EMPTY, m);
    AloneIsBatch(lex, text, m);
    var found := Alone(lex, text, m).starts;
    assert m in found <==> EnclosedFromZero(lex, text, m) by {
      assert Unblocked(text, [m], m);
      BatchRefinesReach(lex, text, 0, EMPTY, [m], m);
    }
    forall s | s in found
      ensures s == m
    {
      BatchWithin(lex, text, 0, EMPTY, [m]);
      assert s in [m as int];
    }
  }

  /** One pass refines one replay per marker.  Whenever the batch call returns, it reports an offset
      exactly when the single-marker call reports it and no supplied offset up to it lies inside a
      backtick run; for such offsets the single-marker call returns too. */
  lemma BatchRefinesSingle(lex: Lexicon, text: string, starts: seq<int>, m: int)
    requires EnclosedMarkers(lex, text, starts).Enclosed? && m in starts
    ensures 0 <= m < |text|
    ensures Unblocked(text, starts, m) ==> Alone(lex, text, m).Enclosed?
    ensures m in EnclosedMarkers(lex, text, starts).starts <==>
              Unblocked(text, starts, m) && Alone(lex, text, m) == Enclosed({m})
  {
    assert starts[..|starts|] == starts;
    DistinctAscends(starts);
    var d := Distinct(starts);
    BatchRefinesReach(lex, text, 0, EMPTY, d, m);
    assert Unblocked(text, starts, m) == Unblocked(text, d, m);
    if Unblocked(text, starts, m) { AloneIsReach(lex, text, m); }
  }

  lemma OnlySupplied(lex: Lexicon, text: string, starts: seq<int>)
    requires EnclosedMarkers(lex, text, starts).Enclosed?
    ensures forall s :: s in EnclosedMarkers(lex, text, starts).starts ==> s in starts
  {
    assert starts[..|starts|] == starts;
    DistinctAscends(starts);
    if starts != [] { BatchWithin(lex, text, 0, EMPTY, Distinct(starts)); }
  }

  /** Callers pass offsets of `(` or `[`: then batch and single replay agree everywhere. */
  lemma BatchAgreesOnBrackets(lex: Lexicon, text: string, starts: seq<int>)
    requires EnclosedMarkers(lex, text, starts).Enclosed?
    requires forall s :: s in starts && 0 <= s < |text| ==> text[s] == '(' || text[s] == '['
    ensures forall m :: m in EnclosedMarkers(lex, text, starts).starts <==>
                        m in starts && Alone(lex, text, m) == Enclosed({m})
  {
    OnlySupplied(lex, text, starts);
    forall m | m in starts
      ensures m in EnclosedMarkers(lex, text, starts).starts <==> Alone(lex, text, m) == Enclosed({m})
    {
      BatchRefinesSingle(lex, text, starts, m);
      assert Unblocked(text, starts, m);
    }
  }

  const BLOCKED := "``("
  const AFTER_RUN := Scan([Frame("``", "``", 0, None)], false)

  lemma BlockedSteps(lex: Lexicon)
    ensures StepAt(lex, BLOCKED, 0, EMPTY) == Next(2, AFTER_RUN)
    ensures var r := StepAt(lex, BLOCKED, 2, AFTER_RUN); r.Next? && r.index == 3
  {
    assert RunEnd(BLOCKED, 0) == 2 by { assert RunEnd(BLOCKED, 1) == 2; }
    assert BLOCKED[0..2] == "``";
    assert BackslashRun(BLOCKED, 0) == BackslashRun(BLOCKED, 2) == 0;
    assert StepAt(lex, BLOCKED, 0, EMPTY) == BacktickStep(BLOCKED, 0, EMPTY);
  }

  lemma BlockedTokens()
    ensures TokensLeft(BLOCKED, 0) <= 3
  {
    assert TokensLeft(BLOCKED, 3) == 0;
    assert TokensLeft(BLOCKED, 2) <= 1;
    assert TokensLeft(BLOCKED, 1) <= 2;
  }

  /** Without that condition they differ: an offset inside a backtick run blocks every later one. */
  lemma BatchCanMissEnclosed(lex: Lexicon)
    ensures EnclosedMarkers(lex, BLOCKED, [1, 2]) == Enclosed({})
    ensures Alone(lex, BLOCKED, 2) == Enclosed({2})
  {
    BlockedTokens();
    BatchBlocked(lex);
    assert [1, 2][..2] == [1, 2];
    assert Distinct([1, 2]) == [1, 2] by { assert [1, 2][..1] == [1]; assert Distinct([1]) == [1]; }
    AloneBlocked(lex);
  }

  lemma BatchBlocked(lex: Lexicon)
    ensures Batch(lex, BLOCKED, 0, EMPTY, [1, 2]) == Done({})
  {
    BlockedSteps(lex);
    var r := StepAt(lex, BLOCKED, 2, AFTER_RUN);
    assert Batch(lex, BLOCKED, 3, r.scan, [1, 2]) == Done({});
    assert Batch(lex, BLOCKED, 2, AFTER_RUN, [1, 2]) == Done({});
  }

  lemma AloneBlocked(lex: Lexicon)
    ensures Alone(lex, BLOCKED, 2) == Enclosed({2})
  {
    BlockedSteps(lex);
    BlockedTokens();
    assert Batch(lex, BLOCKED, 2, AFTER_RUN, [2]) == Done({2});
    assert Batch(lex, BLOCKED, 0, EMPTY, [2]).Done?;
    AloneIsBatch(lex, BLOCKED, 2);
  }

  // ---------------------------------------------------------------- what every replay step keeps

  predicate Matches(opening: Token, closing: Token) {
    |opening| > 0 &&
    var c := opening[0];
    if c == '`' then closing == opening
    else |opening| == 1 &&
         if IsDirOpen(c) then closing == [DirCloser(c)]
         else if IsSymmetric(c) then closing == opening
         else IsBracketOpen(c) && closing == [BracketCloser(c)]
  }

  /** Frames sit at the offsets of their opening tokens, in text order, below `i`, with matching closers. */
  predicate Grounded(text: string, stack: seq<Frame>, i: nat)
    requires i <= |text|
  {
    && (forall k :: 0 <= k < |stack| ==>
          && stack[k].offset + |stack[k].opening| <= i
          && text[stack[k].offset..stack[k].offset + |stack[k].opening|] == stack[k].opening
          && Matches(stack[k].opening, stack[k].closing))
    && (forall k, l :: 0 <= k < l < |stack| ==> stack[k].offset < stack[l].offset)
  }

  lemma GroundedPush(text: string, stack: seq<Frame>, i: nat, f: Frame, next: nat)
    requires i <= next <= |text| && Grounded(text, stack, i)
    requires f.offset == i && i + |f.opening| <= next && text[i..i + |f.opening|] == f.opening
    requires Matches(f.opening, f.closing)
    ensures Grounded(text, stack + [f], next)
  {
    forall k | 0 <= k < |stack| ensures stack[k].offset < i {
      assert |stack[k].opening| > 0;
    }
  }

  lemma GrowsByToken(lex: Lexicon, text: string, i: nat, st: Scan)
    requires i < |text|
    ensures var r := StepAt(lex, text, i, st);
            r.Next? && |r.scan.stack| > |st.stack| ==>
              var f := r.scan.stack[|st.stack|];
              && r.scan.stack == st.stack + [f] && f.offset == i && i + |f.opening| <= r.index
              && text[i..i + |f.opening|] == f.opening && Matches(f.opening, f.closing)
  {
    assert text[i..i + 1] == [text[i]];
  }

  lemma StepKeepsGrounded(lex: Lexicon, text: string, i: nat, st: Scan)
    requires i < |text| && Grounded(text, st.stack, i)
    ensures var r := StepAt(lex, text, i, st); r.Next? ==> Grounded(text, r.scan.stack, r.index)
  {
    var r := StepAt(lex, text, i, st);
    GrowsByToken(lex, text, i, st);
    ShrinksToPrefix(lex, text, i, st);
    if r.Next? && |r.scan.stack| > |st.stack| {
      GroundedPush(text, st.stack, i, r.scan.stack[|st.stack|], r.index);
    }
  }

  lemma ShrinksToPrefix(lex: Lexicon, text: string, i: nat, st: Scan)
    requires i < |text|
    ensures var r := StepAt(lex, text, i, st);
            r.Next? && |r.scan.stack| <= |st.stack| ==> r.scan.stack <= st.stack
  {
    if IsDirClose(text[i]) { DirCloseShrinks(lex, text, i, st); }
    if IsSymmetric(text[i]) { SymmetricShrinks(lex, text, i, st); }
  }

  lemma DirCloseShrinks(lex: Lexicon, text: string, i: nat, st: Scan)
    requires i < |text| && IsDirClose(text[i])
    ensures var r := DirCloseStep(lex, text, i, st); r.Next? && r.scan.stack <= st.stack
  {
  }

  lemma SymmetricShrinks(lex: Lexicon, text: string, i: nat, st: Scan)
    requires i < |text| && IsSymmetric(text[i])
    ensures var r := SymmetricStep(lex, text, i, st);
            r.Next? && |r.scan.stack| <= |st.stack| ==> r.scan.stack <= st.stack
  {
  }

  /** In every state a replay reaches, the stack is grounded in the text, so a closing token determines
      its opening token, and no more than 256 delimiters are open. */
  lemma {:induction false} ReachIsGrounded(lex: Lexicon, text: string, i: nat, st: Scan, m: nat)
    requires i <= m < |text|
    requires Grounded(text, st.stack, i) && |st.stack| <= MAX_DEPTH
    ensures var a := Reach(lex, text, i, st, m);
            a.At? ==> Grounded(text, a.scan.stack, m) && |a.scan.stack| <= MAX_DEPTH
    decreases m - i
  {
    if i < m {
      StepKeepsGrounded(lex, text, i, st);
      var r := StepAt(lex, text, i, st);
      if r.Next? && r.index <= m { ReachIsGrounded(lex, text, r.index, r.scan, m); }
    }
  }

  /** Hence the resolver's test that a closed directional frame has the expected opener never fails. */
  lemma ClosedFrameHasItsOpener(lex: Lexicon, text: string, m: nat)
    requires m < |text| && IsDirClose(text[m])
    ensures var a := Reach(lex, text, 0, EMPTY, m);
            a.At? && a.scan.stack != [] && Top(a.scan.stack).closing == [text[m]]
            ==> Top(a.scan.stack).opening == [DirOpener(text[m])]
  {
    ReachIsGrounded(lex, text, 0, EMPTY, m);
  }
}
