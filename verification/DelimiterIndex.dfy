/**
 The one-pass delimiter replay as the resolver runs it: one mutable stack whose pair counts,
 closing counts, run lengths and unread-token counters are maintained step by step instead of
 being scanned.  Every method is proved against the scanning definitions of `DelimiterReplay`.
 */
module DelimiterIndex {
  import opened Common
  import opened DelimiterReplay

  // ---------------------------------------------------------------- what the indexes must say

  predicate RunsOf(stack: seq<Frame>, runs: seq<nat>) {
    |runs| == |stack| &&
    (stack != [] ==> runs[|runs| - 1] == TopRun(stack) && RunsOf(stack[..|stack| - 1], runs[..|runs| - 1]))
  }

  ghost predicate PairsOf(stack: seq<Frame>, counts: map<(Token, Token), nat>) {
    && (forall p :: p in counts <==> PairCount(stack, p) > 0)
    && (forall p :: p in counts ==> counts[p] == PairCount(stack, p))
  }

  ghost predicate ClosingsOf(stack: seq<Frame>, counts: map<Token, nat>) {
    && (forall c :: c in counts <==> ClosingCount(stack, c) > 0)
    && (forall c :: c in counts ==> counts[c] == ClosingCount(stack, c))
  }

  function Added<K>(counts: map<K, nat>, k: K): map<K, nat> {
    counts[k := (if k in counts then counts[k] else 0) + 1]
  }

  function Removed<K>(counts: map<K, nat>, k: K): map<K, nat>
    requires k in counts && counts[k] > 0
  {
    if counts[k] - 1 != 0 then counts[k := counts[k] - 1] else counts - {k}
  }

  lemma Init(stack: seq<Frame>, f: Frame)
    ensures (stack + [f])[..|stack|] == stack
  {
  }

  lemma PushedPairs(stack: seq<Frame>, f: Frame, counts: map<(Token, Token), nat>)
    requires PairsOf(stack, counts)
    ensures PairsOf(stack + [f], Added(counts, f.Pair()))
  {
    Init(stack, f);
  }

  lemma PushedClosings(stack: seq<Frame>, f: Frame, counts: map<Token, nat>)
    requires ClosingsOf(stack, counts)
    ensures ClosingsOf(stack + [f], Added(counts, f.closing))
  {
    Init(stack, f);
  }

  lemma PushedRuns(stack: seq<Frame>, f: Frame, runs: seq<nat>)
    requires RunsOf(stack, runs)
    ensures RunsOf(stack + [f],
              runs + [if stack != [] && Top(stack).Pair() == f.Pair() then runs[|runs| - 1] + 1 else 1])
  {
    Init(stack, f);
    var longer := runs + [if stack != [] && Top(stack).Pair() == f.Pair() then runs[|runs| - 1] + 1 else 1];
    assert longer[..|runs|] == runs;
  }

  lemma PoppedPairs(stack: seq<Frame>, counts: map<(Token, Token), nat>)
    requires stack != [] && PairsOf(stack, counts)
    ensures Top(stack).Pair() in counts && counts[Top(stack).Pair()] > 0
    ensures PairsOf(stack[..|stack| - 1], Removed(counts, Top(stack).Pair()))
  {
    assert Top(stack).Pair() in counts;
  }

  lemma PoppedClosings(stack: seq<Frame>, counts: map<Token, nat>)
    requires stack != [] && ClosingsOf(stack, counts)
    ensures Top(stack).closing in counts && counts[Top(stack).closing] > 0
    ensures ClosingsOf(stack[..|stack| - 1], Removed(counts, Top(stack).closing))
  {
    assert Top(stack).closing in counts;
  }

  lemma {:induction false} RunUncounted(lex: Lexicon, text: string, i: nat, e: nat, c: char)
    requires i <= e <= |text|
    requires forall k :: i <= k < e ==> text[k] == '`'
    requires c != '`'
    ensures DirLeft(lex, text, i, c) == DirLeft(lex, text, e, c)
    ensures OpensLeft(lex, text, i, c) == OpensLeft(lex, text, e, c)
    ensures ClosesLeft(lex, text, i, c) == ClosesLeft(lex, text, e, c)
    decreases e - i
  {
    if i < e { RunUncounted(lex, text, i + 1, e, c); }
  }

  class DelimiterIndex {
    const lex: Lexicon
    const text: string
    var stack: seq<Frame>
    var runLengths: seq<nat>
    var pairCounts: map<(Token, Token), nat>
    var closingCounts: map<Token, nat>
    var directionalRemaining: map<char, int>
    var openRemaining: map<char, int>
    var closeRemaining: map<char, int>
    var malformed: bool

    constructor (lex: Lexicon, text: string)
      ensures this.lex == lex && this.text == text
      ensures Indexed() && View() == EMPTY
      ensures Tallied(0)
    {
      this.lex, this.text := lex, text;
      stack, runLengths, pairCounts, closingCounts, malformed := [], [], map[], map[], false;
      directionalRemaining := map['\U{201C}' := 0, '\U{2018}' := 0, '\U{AB}' := 0, '\U{2039}' := 0,
                                  '\U{201D}' := 0, '\U{2019}' := 0, '\U{BB}' := 0, '\U{203A}' := 0];
      openRemaining := map[DOUBLE_QUOTE := 0, SINGLE_QUOTE := 0];
      closeRemaining := map[DOUBLE_QUOTE := 0, SINGLE_QUOTE := 0];
    }

    ghost function View(): Scan
      reads this
    {
      Scan(stack, malformed)
    }

    /** The incremental indexes say what a scan of the stack would say. */
    ghost predicate Indexed()
      reads this
    {
      && |stack| <= MAX_DEPTH
      && RunsOf(stack, runLengths)
      && PairsOf(stack, pairCounts)
      && ClosingsOf(stack, closingCounts)
    }

    /** The remaining counters say what a scan of the unread suffix `text[i..]` would say. */
    ghost predicate Unread(i: nat)
      reads this
    {
      && (forall c :: IsDirectional(c) ==>
            c in directionalRemaining && directionalRemaining[c] == DirLeft(lex, text, i, c))
      && (forall c :: IsSymmetric(c) ==> c in openRemaining && openRemaining[c] == OpensLeft(lex, text, i, c))
      && (forall c :: IsSymmetric(c) ==> c in closeRemaining && closeRemaining[c] == ClosesLeft(lex, text, i, c))
    }

    method Push(opening: Token, closing: Token, offset: nat, continuation: Option<Continuation>) returns (ok: bool)
      requires Indexed()
      modifies this`stack, this`runLengths, this`pairCounts, this`closingCounts
      ensures Indexed()
      ensures ok == (|old(stack)| < MAX_DEPTH)
      ensures stack == if ok then old(stack) + [Frame(opening, closing, offset, continuation)] else old(stack)
    {
      if |stack| >= MAX_DEPTH { return false; }
      var frame := Frame(opening, closing, offset, continuation);
      PushedRuns(stack, frame, runLengths);
      PushedPairs(stack, frame, pairCounts);
      PushedClosings(stack, frame, closingCounts);
      runLengths := runLengths +
        [if stack != [] && Top(stack).Pair() == frame.Pair() then runLengths[|runLengths| - 1] + 1 else 1];
      stack := stack + [frame];
      pairCounts := Added(pairCounts, frame.Pair());
      closingCounts := Added(closingCounts, closing);
      return true;
    }

    method PopFrame() returns (frame: Frame)
      requires Indexed() && stack != []
      modifies this`stack, this`runLengths, this`pairCounts, this`closingCounts
      ensures Indexed()
      ensures frame == Top(old(stack)) && stack == old(stack)[..|old(stack)| - 1]
    {
      frame := Top(stack);
      PoppedPairs(stack, pairCounts);
      PoppedClosings(stack, closingCounts);
      stack := stack[..|stack| - 1];
      runLengths := runLengths[..|runLengths| - 1];
      pairCounts := Removed(pairCounts, frame.Pair());
      closingCounts := Removed(closingCounts, frame.closing);
    }

    /** The counters hold the eligible tokens of `text[..i]`. */
    ghost predicate Tallied(i: nat)
      reads this
    {
      && (forall c :: IsDirectional(c) ==> c in directionalRemaining)
      && (forall c :: IsDirectional(c) ==>
            directionalRemaining[c] + DirLeft(lex, text, i, c) == DirLeft(lex, text, 0, c))
      && (forall c :: IsSymmetric(c) ==> c in openRemaining && c in closeRemaining)
      && (forall c :: IsSymmetric(c) ==>
            openRemaining[c] + OpensLeft(lex, text, i, c) == OpensLeft(lex, text, 0, c))
      && (forall c :: IsSymmetric(c) ==>
            closeRemaining[c] + ClosesLeft(lex, text, i, c) == ClosesLeft(lex, text, 0, c))
    }

    method TallyDirectional(i: nat, escaped: bool)
      requires i < |text| && IsDirectional(text[i]) && escaped == Escaped(text, i) && Tallied(i)
      modifies this`directionalRemaining
      ensures Tallied(i + 1)
    {
      var character := text[i];
      if character == '\U{2019}' && InsideWord(lex, text, i) { return; }
      if !escaped {
        directionalRemaining := directionalRemaining[character := directionalRemaining[character] + 1];
      }
    }

    method TallySymmetric(i: nat, escaped: bool)
      requires i < |text| && IsSymmetric(text[i]) && escaped == Escaped(text, i) && Tallied(i)
      modifies this`openRemaining, this`closeRemaining
      ensures Tallied(i + 1)
    {
      var character := text[i];
      if escaped || (character == SINGLE_QUOTE && InsideWord(lex, text, i)) { return; }
      if OpeningContext(lex, text, i) {
        openRemaining := openRemaining[character := openRemaining[character] + 1];
      } else if ClosingContext(lex, text, i) {
        closeRemaining := closeRemaining[character := closeRemaining[character] + 1];
      }
    }

    method Tally(i: nat, escaped: bool)
      requires i < |text| && escaped == Escaped(text, i) && Tallied(i)
      modifies this`directionalRemaining, this`openRemaining, this`closeRemaining
      ensures Tallied(i + 1)
    {
      if IsDirectional(text[i]) {
        TallyDirectional(i, escaped);
      } else if IsSymmetric(text[i]) {
        TallySymmetric(i, escaped);
      }
    }

    /** First pass: counts the eligible tokens of the whole text and bounds the delimiter tokens. */
    method Prepass() returns (ok: bool)
      requires Tallied(0)
      modifies this`directionalRemaining, this`openRemaining, this`closeRemaining
      ensures ok <==> TokensLeft(text, 0) <= MAX_TOKENS
      ensures ok ==> Unread(0)
    {
      var backslashes, tokens, i := 0, 0, 0;
      while i < |text|
        invariant 0 <= i <= |text|
        invariant backslashes == BackslashRun(text, i)
        invariant tokens + TokensLeft(text, i) == TokensLeft(text, 0) && tokens <= MAX_TOKENS
        invariant Tallied(i)
      {
        if text[i] == ESCAPE {
          backslashes := backslashes + 1;
        } else {
          var escaped := backslashes % 2 == 1;
          backslashes := 0;
          if IsDelimiter(text[i]) && !escaped {
            tokens := tokens + 1;
            if tokens > MAX_TOKENS { return false; }
          }
          Tally(i, escaped);
        }
        i := i + 1;
      }
      return true;
    }

    method StepBacktick(i: nat) returns (ok: bool, next: nat)
      requires i < |text| && text[i] == '`' && Indexed()
      modifies this`stack, this`runLengths, this`pairCounts, this`closingCounts
      ensures Indexed()
      ensures BacktickStep(text, i, old(View())) == if ok then Next(next, View()) else TooDeep
    {
      next := i + 1;
      while next < |text| && text[next] == '`'
        invariant i < next <= |text|
        invariant RunEnd(text, next - 1) == RunEnd(text, i)
      {
        next := next + 1;
      }
      assert RunEnd(text, next - 1) == next;
      var token := text[i..next];
      if stack != [] && Top(stack).closing == token {
        var _ := PopFrame();
        ok := true;
      } else {
        ok := Push(token, token, i, None);
      }
    }

    /** Pops the frames of `pair` that no future close can match; they are all frames of that pair. */
    method PopUnmatched(pair: (Token, Token), surplus: int)
      requires Indexed()
      modifies this`stack, this`runLengths, this`pairCounts, this`closingCounts
      ensures Indexed()
      ensures stack == old(stack)[..|old(stack)| - Unmatched(old(stack), pair, surplus)]
    {
      assert stack[..|stack|] == stack;
      var sameFrames := if stack != [] && Top(stack).Pair() == pair then runLengths[|runLengths| - 1] else 0;
      var future := if surplus > 0 then surplus else 0;
      var unmatched := if sameFrames > future then sameFrames - future else 0;
      assert unmatched == Unmatched(stack, pair, surplus);
      UnmatchedIsUniform(stack, pair, surplus);
      var popped := 0;
      while popped < unmatched
        invariant 0 <= popped <= unmatched <= |old(stack)|
        invariant Indexed() && stack == old(stack)[..|old(stack)| - popped]
      {
        var frame := PopFrame();
        assert frame.Pair() == pair;
        popped := popped + 1;
      }
    }

    function PairTally(pair: (Token, Token)): (n: nat)
      requires Indexed()
      reads this
      ensures n == PairCount(stack, pair)
    {
      if pair in pairCounts then pairCounts[pair] else 0
    }

    function Surplus(i: nat, closing: char, opening: char): (n: int)
      requires Unread(i) && IsDirectional(closing) && IsDirectional(opening)
      reads this
      ensures n == DirLeft(lex, text, i, closing) - DirLeft(lex, text, i, opening)
    {
      directionalRemaining[closing] - directionalRemaining[opening]
    }

    method CloseTop(i: nat, pair: (Token, Token), surplus: int)
      requires i < |text| && Indexed() && stack != []
      modifies this`stack, this`runLengths, this`pairCounts, this`closingCounts
      ensures Indexed()
      ensures stack == AfterClose(lex, text, i, old(stack), pair, surplus)
    {
      var frame := PopFrame();
      if frame.opening == pair.0 && frame.continuation.Some? &&
         lex.terminalClose(text, i, frame.continuation.value)
      {
        PopUnmatched(pair, surplus);
      }
    }

    /** A directional close that matches the top frame. */
    method CloseMatching(i: nat, pair: (Token, Token), surplus: int)
      requires i < |text| && Indexed() && stack != []
      modifies this`stack, this`runLengths, this`pairCounts, this`closingCounts
      ensures Indexed()
      ensures stack == AfterMatchingClose(lex, text, i, old(stack), pair, surplus)
    {
      var sameFrameCount := PairTally(pair);
      if sameFrameCount == 1 && (surplus >= 1 || lex.internalMark(text, i, Top(stack).offset)) { return; }
      CloseTop(i, pair, surplus);
    }

    method StepDirectionalClose(i: nat, opening: char, surplus: int)
      requires i < |text| && IsDirClose(text[i]) && Indexed()
      requires opening == DirOpener(text[i])
      requires surplus == DirLeft(lex, text, i + 1, text[i]) - DirLeft(lex, text, i + 1, opening)
      modifies this`stack, this`runLengths, this`pairCounts, this`closingCounts, this`malformed
      ensures Indexed()
      ensures DirCloseStep(lex, text, i, old(View())) == Next(i + 1, View())
    {
      var character := text[i];
      if character == '\U{2019}' && InsideWord(lex, text, i) { return; }
      if stack != [] && Top(stack).closing == [character] {
        CloseMatching(i, ([opening], [character]), surplus);
      } else if [character] in closingCounts {
        malformed := true;
      }
    }

    method StepSymmetric(i: nat) returns (ok: bool)
      requires i < |text| && IsSymmetric(text[i]) && Indexed() && Unread(i + 1)
      modifies this`stack, this`runLengths, this`pairCounts, this`closingCounts, this`malformed
      ensures Indexed()
      ensures SymmetricStep(lex, text, i, old(View())) == if ok then Next(i + 1, View()) else TooDeep
    {
      ok := true;
      var character := text[i];
      if character == SINGLE_QUOTE && InsideWord(lex, text, i) { return; }
      var opens, closes := OpeningContext(lex, text, i), ClosingContext(lex, text, i);
      if stack != [] && Top(stack).closing == [character] {
        var pair: (Token, Token) := ([character], [character]);
        var sameFrameCount := if pair in pairCounts then pairCounts[pair] else 0;
        var surplus := closeRemaining[character] - openRemaining[character];
        var ambiguous := closes && sameFrameCount == 1 &&
                         (surplus >= 1 || lex.internalMark(text, i, Top(stack).offset));
        if opens && !closes {
          ok := Push([character], [character], i, None);
        } else if !ambiguous {
          var _ := PopFrame();
        }
      } else if closes && [character] in closingCounts {
        malformed := true;
      } else if opens {
        ok := Push([character], [character], i, None);
      }
    }

    method ConsumeDirectional(i: nat)
      requires i < |text| && IsDirectional(text[i]) && Unread(i)
      modifies this`directionalRemaining
      ensures Unread(i + 1)
    {
      var character := text[i];
      if !Escaped(text, i) && !(character == '\U{2019}' && InsideWord(lex, text, i)) {
        directionalRemaining := directionalRemaining[character := directionalRemaining[character] - 1];
      }
    }

    method ConsumeSymmetric(i: nat)
      requires i < |text| && IsSymmetric(text[i]) && Unread(i)
      modifies this`openRemaining, this`closeRemaining
      ensures Unread(i + 1)
    {
      var character := text[i];
      if Escaped(text, i) || (character == SINGLE_QUOTE && InsideWord(lex, text, i)) { return; }
      if OpeningContext(lex, text, i) {
        openRemaining := openRemaining[character := openRemaining[character] - 1];
      } else if ClosingContext(lex, text, i) {
        closeRemaining := closeRemaining[character := closeRemaining[character] - 1];
      }
    }

    /** Takes the token at `i` off the unread counters. */
    method Consume(i: nat)
      requires i < |text| && Unread(i)
      modifies this`directionalRemaining, this`openRemaining, this`closeRemaining
      ensures Unread(i + 1)
    {
      if IsDirectional(text[i]) {
        ConsumeDirectional(i);
      } else if IsSymmetric(text[i]) {
        ConsumeSymmetric(i);
      }
    }

    method StepBracketClose(i: nat)
      requires i < |text| && Indexed()
      modifies this`stack, this`runLengths, this`pairCounts, this`closingCounts, this`malformed
      ensures Indexed()
      ensures BracketCloseStep(text, i, old(View())) == Next(i + 1, View())
    {
      if stack != [] && Top(stack).closing == [text[i]] {
        var _ := PopFrame();
      } else if [text[i]] in closingCounts {
        malformed := true;
      }
    }

    /** An unescaped character, once it is off the unread counters. */
    method StepToken(i: nat) returns (ok: bool, next: nat)
      requires i < |text| && text[i] != ESCAPE && !Escaped(text, i)
      requires Indexed() && Unread(i + 1)
      modifies this`stack, this`runLengths, this`pairCounts, this`closingCounts, this`malformed
      ensures Indexed()
      ensures StepAt(lex, text, i, old(View())) == if ok then Next(next, View()) else TooDeep
    {
      var character := text[i];
      ok, next := true, i + 1;
      if character == '`' {
        ok, next := StepBacktick(i);
      } else if IsDirOpen(character) {
        ok := Push([character], [DirCloser(character)], i, ContinuationAt(lex, text, i, stack));
      } else if IsDirClose(character) {
        var opening := DirOpener(character);
        StepDirectionalClose(i, opening, Surplus(i + 1, character, opening));
      } else if IsSymmetric(character) {
        ok := StepSymmetric(i);
      } else if IsBracketOpen(character) {
        ok := Push([character], [BracketCloser(character)], i, None);
      } else if IsBracketClose(character) {
        StepBracketClose(i);
      }
    }

    lemma UnreadAfterStep(i: nat, next: nat)
      requires i < |text| && Unread(i + 1)
      requires next == if text[i] == '`' then RunEnd(text, i) else i + 1
      ensures Unread(next)
    {
      if text[i] == '`' {
        forall c | IsDirectional(c) || IsSymmetric(c)
          ensures DirLeft(lex, text, i + 1, c) == DirLeft(lex, text, next, c)
          ensures OpensLeft(lex, text, i + 1, c) == OpensLeft(lex, text, next, c)
          ensures ClosesLeft(lex, text, i + 1, c) == ClosesLeft(lex, text, next, c)
        {
          RunUncounted(lex, text, i + 1, next, c);
        }
      }
    }

    /** One turn of the replay loop at a character that is not a backslash. */
    method StepCharacter(i: nat, escaped: bool) returns (ok: bool, next: nat)
      requires i < |text| && text[i] != ESCAPE && escaped == Escaped(text, i)
      requires Indexed() && Unread(i)
      modifies this
      ensures Indexed()
      ensures StepAt(lex, text, i, old(View())) == if ok then Next(next, View()) else TooDeep
      ensures ok ==> next <= |text| && Unread(next)
    {
      Consume(i);
      if escaped { return true, i + 1; }
      ok, next := StepToken(i);
      if ok { UnreadAfterStep(i, next); }
    }

    /** One turn of the replay loop. */
    method Turn(i: nat, backslashes: nat) returns (ok: bool, next: nat, backslashesNext: nat)
      requires i < |text| && backslashes == BackslashRun(text, i)
      requires Indexed() && Unread(i)
      modifies this
      ensures Indexed()
      ensures StepAt(lex, text, i, old(View())) == if ok then Next(next, View()) else TooDeep
      ensures ok ==> next <= |text| && Unread(next) && backslashesNext == BackslashRun(text, next)
    {
      if text[i] == ESCAPE {
        return true, i + 1, backslashes + 1;
      }
      ok, next := StepCharacter(i, backslashes % 2 == 1);
      backslashesNext := 0;
    }

    /** Records the pending marker if it is here, then takes one turn unless no marker is pending. */
    method Advance(i: nat, backslashes: nat, starts: seq<int>, marker: nat, found: set<int>)
      returns (ok: bool, next: nat, backslashesNext: nat, markerNext: nat, foundNext: set<int>)
      requires i < |text| && backslashes == BackslashRun(text, i) && marker < |starts|
      requires Indexed() && Unread(i)
      modifies this
      ensures Indexed() && marker <= markerNext <= |starts|
      ensures ok && markerNext < |starts| ==>
                && i < next <= |text| && Unread(next) && backslashesNext == BackslashRun(text, next)
      ensures Plus(found, Batch(lex, text, i, old(View()), starts[marker..])) ==
              if !ok then Exceeded
              else if markerNext == |starts| then Done(foundNext)
              else Plus(foundNext, Batch(lex, text, next, View(), starts[markerNext..]))
    {
      BatchTurn(lex, text, i, View(), starts[marker..]);
      ok, next, backslashesNext, markerNext, foundNext := true, i, backslashes, marker, found;
      if starts[marker] == i {
        if (malformed || stack != []) && !EditorialBracketOnly(text, i, Scan(stack, malformed)) {
          foundNext := found + {i};
        }
        assert starts[marker..][1..] == starts[marker + 1..];
        markerNext := marker + 1;
      }
      if markerNext < |starts| {
        ok, next, backslashesNext := Turn(i, backslashes);
      }
    }

    /** The replay loop over a batch of ascending marker offsets. */
    method Replay(starts: seq<int>) returns (ok: bool, enclosed: set<int>)
      requires Ascending(starts) && starts != [] && 0 <= starts[0] && starts[|starts| - 1] < |text|
      requires Indexed() && Unread(0) && View() == EMPTY
      modifies this
      ensures Batch(lex, text, 0, EMPTY, starts) == if ok then Done(enclosed) else Exceeded
    {
      enclosed, ok := {}, true;
      var marker, index, backslashes := 0, 0, 0;
      ghost var whole := Batch(lex, text, 0, EMPTY, starts);
      assert starts[0..] == starts;
      assert whole == Plus({}, whole);
      while index < |text|
        invariant 0 <= index <= |text| && 0 <= marker < |starts|
        invariant backslashes == BackslashRun(text, index)
        invariant ok && Indexed() && Unread(index)
        invariant whole == Plus(enclosed, Batch(lex, text, index, View(), starts[marker..]))
      {
        ok, index, backslashes, marker, enclosed := Advance(index, backslashes, starts, marker, enclosed);
        if !ok || marker == |starts| { return; }
      }
    }
  }

  function Plus(found: set<int>, later: Outcome): Outcome {
    if later.Done? then Done(found + later.enclosed) else Exceeded
  }

  lemma BatchTurn(lex: Lexicon, text: string, i: nat, st: Scan, starts: seq<int>)
    requires i < |text| && starts != []
    ensures var rest := if starts[0] == i then starts[1..] else starts;
            var here := if starts[0] == i then Mark(text, i, st) else {};
            Batch(lex, text, i, st, starts) ==
            if rest == [] then Done(here)
            else match StepAt(lex, text, i, st)
              case TooDeep => Exceeded
              case Next(j, st') => Plus(here, Batch(lex, text, j, st', rest))
  {
  }

  /** `_delimiter_enclosed_marker_starts`: all input checks, the first pass and the replay. */
  method DelimiterEnclosedMarkerStarts(lex: Lexicon, text: string, markerStarts: seq<int>) returns (r: Result)
    ensures r == EnclosedMarkers(lex, text, markerStarts)
  {
    var starts: seq<int> := [];
    var k := 0;
    while k < |markerStarts|
      invariant 0 <= k <= |markerStarts| && k <= MAX_MARKERS
      invariant NonDescending(markerStarts[..k])
      invariant starts == Distinct(markerStarts[..k])
    {
      if k + 1 > MAX_MARKERS { return Rejected(TooManyMarkers); }
      if k > 0 && markerStarts[k] < markerStarts[k - 1] {
        ghost var n := if |markerStarts| < MAX_MARKERS then |markerStarts| else MAX_MARKERS;
        assert markerStarts[..n][k - 1] > markerStarts[..n][k];
        return Rejected(Unordered);
      }
      assert markerStarts[..k + 1][..k] == markerStarts[..k];
      if k == 0 || markerStarts[k] != markerStarts[k - 1] { starts := starts + [markerStarts[k]]; }
      k := k + 1;
    }
    assert markerStarts[..k] == markerStarts;
    DistinctAscends(markerStarts);
    if starts == [] { return Enclosed({}); }
    if starts[0] < 0 || starts[|starts| - 1] >= |text| { return Rejected(OutsideText); }
    var index := new DelimiterIndex(lex, text);
    var ok := index.Prepass();
    if !ok { return Rejected(TooManyTokens); }
    var enclosed;
    ok, enclosed := index.Replay(starts);
    r := if ok then Enclosed(enclosed) else Rejected(NestingTooDeep);
  }
}
