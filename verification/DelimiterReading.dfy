/** How the replay reads well-nested text: each group opens its frame and closes it. */
module DelimiterReading {
  import opened Common
  import opened DelimiterReplay
  import opened DelimiterNesting

  // ---------------------------------------------------------------- one delimiter at a time

  function PairOf(d: Delimiter): (Token, Token) { (Opening(d), Closing(d)) }

  lemma ClosingTells(d: Delimiter, e: Delimiter)
    requires Closing(d) == Closing(e) && Closing(d) != []
    ensures d == e
  {
    assert Closing(d)[0] == Closing(e)[0];
    assert |Closing(d)| == |Closing(e)|;
  }

  /** The frames on the stack are those of the groups around. */
  predicate Alike(stack: seq<Frame>, around: seq<Delimiter>) {
    |stack| == |around| &&
    forall k :: 0 <= k < |stack| ==> stack[k].Pair() == PairOf(around[k]) && stack[k].closing != []
  }

  lemma {:induction false} AlikeCounts(stack: seq<Frame>, around: seq<Delimiter>, d: Delimiter)
    requires Alike(stack, around)
    ensures PairCount(stack, PairOf(d)) > 0 ==> d in around || Closing(d) == []
    ensures d in around ==> PairCount(stack, PairOf(d)) > 0
  {
    if stack != [] {
      var n := |stack| - 1;
      AlikeCounts(stack[..n], around[..n], d);
      if stack[n].Pair() == PairOf(d) { ClosingTells(around[n], d); }
      if d in around && d !in around[..n] { assert around[n] == d; }
    }
  }

  lemma {:induction false} AlikeStray(stack: seq<Frame>, around: seq<Delimiter>, closing: string)
    requires Alike(stack, around) && forall d :: d in around ==> Closing(d) != closing
    ensures ClosingCount(stack, closing) == 0
  {
    if stack != [] {
      var n := |stack| - 1;
      AlikeStray(stack[..n], around[..n], closing);
      assert around[n] in around;
    }
  }

  lemma PairCountPush(stack: seq<Frame>, f: Frame, pair: (Token, Token))
    ensures PairCount(stack + [f], pair) == PairCount(stack, pair) + Bit(f.Pair() == pair)
  {
    assert (stack + [f])[..|stack|] == stack;
  }

  lemma {:induction false} TopRunIsCounted(stack: seq<Frame>)
    requires stack != []
    ensures TopRun(stack) <= PairCount(stack, Top(stack).Pair())
  {
    var n := |stack|;
    if n >= 2 && stack[n - 2].Pair() == stack[n - 1].Pair() { TopRunIsCounted(stack[..n - 1]); }
  }

  predicate IsDirectionalSort(d: Delimiter) { d.DoubleQuotes? || d.SingleQuotes? || d.Guillemets? || d.AngleQuotes? }

  /** The frame of a group opened at `i`; only a directional quote right inside its like may continue it. */
  function Opened(lex: Lexicon, text: string, i: nat, d: Delimiter, stack: seq<Frame>): Frame {
    Frame(Opening(d), Closing(d), i,
          if IsDirectionalSort(d) && stack != [] && Top(stack).Pair() == PairOf(d)
          then lex.continuation(text, i, Top(stack).offset) else None)
  }

  lemma RunEndIs(text: string, i: nat, n: nat, k: nat)
    requires Reads(text, i, Opening(Ticks(n))) && TicksEnd(text, i + n) && k < n
    ensures RunEnd(text, i + k) == i + n
    decreases n - k
  {
    if k + 1 < n {
      TickAt(text, i, n, k + 1);
      RunEndIs(text, i, n, k + 1);
    }
  }

  lemma TicksOpen(lex: Lexicon, text: string, i: nat, n: nat, st: Scan)
    requires n > 0 && Reads(text, i, Opening(Ticks(n))) && TicksEnd(text, i + n) && !Escaped(text, i)
    requires |st.stack| < MAX_DEPTH && (st.stack == [] || Top(st.stack).closing != Closing(Ticks(n)))
    ensures StepAt(lex, text, i, st) ==
            Next(i + n, st.(stack := st.stack + [Frame(Opening(Ticks(n)), Closing(Ticks(n)), i, None)]))
  {
    TickAt(text, i, n, 0);
    RunEndIs(text, i, n, 0);
    assert text[i..i + n] == Opening(Ticks(n)) == Closing(Ticks(n));
  }

  lemma StraightOpens(lex: Lexicon, text: string, i: nat, single: bool, st: Scan)
    requires i < |text| && !Escaped(text, i) && text[i] == Opening(Straight(single))[0]
    requires OpenClear(lex, text, i, Straight(single), []) && |st.stack| < MAX_DEPTH
    ensures var sign := Opening(Straight(single));
            StepAt(lex, text, i, st) == Next(i + 1, st.(stack := st.stack + [Frame(sign, sign, i, None)]))
  {
  }

  lemma OpenStep(lex: Lexicon, text: string, i: nat, d: Delimiter, around: seq<Delimiter>, st: Scan)
    requires Opening(d) != [] && Reads(text, i, Opening(d)) && !Escaped(text, i) && OpenClear(lex, text, i, d, around)
    requires Alike(st.stack, around) && |st.stack| < MAX_DEPTH
    ensures StepAt(lex, text, i, st) ==
            Next(i + |Opening(d)|, st.(stack := st.stack + [Opened(lex, text, i, d, st.stack)]))
  {
    if d.Ticks? {
      if st.stack != [] && Top(st.stack).closing == Closing(d) { ClosingTells(around[|around| - 1], d); }
      TicksOpen(lex, text, i, d.n, st);
    } else {
      assert text[i] == text[i..i + |Opening(d)|][0] == Opening(d)[0];
      if d.Straight? { StraightOpens(lex, text, i, d.single, st); }
    }
  }

  /** With 256 groups open, one more is refused. */
  lemma TooDeepToOpen(lex: Lexicon, text: string, i: nat, d: Delimiter, around: seq<Delimiter>, st: Scan)
    requires Opening(d) != [] && Reads(text, i, Opening(d)) && !Escaped(text, i) && OpenClear(lex, text, i, d, around)
    requires Alike(st.stack, around) && |around| == 256
    ensures StepAt(lex, text, i, st) == TooDeep
  {
    assert text[i] == text[i..i + |Opening(d)|][0] == Opening(d)[0];
    if d.Ticks? {
      RunEndIs(text, i, d.n, 0);
      if Top(st.stack).closing == Closing(d) { ClosingTells(around[255], d); }
    }
  }

  lemma BracketCloses(lex: Lexicon, text: string, j: nat, d: Delimiter, st: Scan)
    requires (d.Round? || d.Square? || d.Curly?) && Reads(text, j, Closing(d)) && !Escaped(text, j)
    requires st.stack != [] && Top(st.stack).Pair() == PairOf(d)
    ensures StepAt(lex, text, j, st) == Next(j + |Closing(d)|, Popped(st))
  {
    assert text[j] == text[j..j + 1][0] == Closing(d)[0];
  }

  lemma TicksClose(lex: Lexicon, text: string, j: nat, n: nat, st: Scan)
    requires n > 0 && Reads(text, j, Closing(Ticks(n))) && !Escaped(text, j) && TicksEnd(text, j + n)
    requires st.stack != [] && Top(st.stack).Pair() == PairOf(Ticks(n))
    ensures StepAt(lex, text, j, st) == Next(j + n, Popped(st))
  {
    TickAt(text, j, n, 0);
    RunEndIs(text, j, n, 0);
  }

  /** The directional close with the balance that a well-nested text has: exactly one frame goes. */
  lemma BalancedClose(lex: Lexicon, text: string, j: nat, stack: seq<Frame>, pair: (Token, Token))
    requires stack != [] && Top(stack).Pair() == pair
    requires PairCount(stack, pair) > 1 || !lex.internalMark(text, j, Top(stack).offset)
    ensures AfterMatchingClose(lex, text, j, stack, pair, PairCount(stack, pair) - 1) == stack[..|stack| - 1]
  {
    var rest := stack[..|stack| - 1];
    assert PairCount(stack, pair) == PairCount(rest, pair) + 1;
    if rest != [] { TopRunIsCounted(rest); }
    assert Unmatched(rest, pair, PairCount(rest, pair)) == 0;
    assert rest[..|rest| - 0] == rest;
  }

  lemma SurplusIs(lex: Lexicon, text: string, j: nat, d: Delimiter)
    requires IsDirectionalSort(d) && Reads(text, j, Closing(d)) && !Escaped(text, j)
    requires !(d.SingleQuotes? && InsideWord(lex, text, j))
    ensures IsDirClose(text[j]) && PairOf(d) == ([DirOpener(text[j])], [text[j]])
    ensures DirLeft(lex, text, j + 1, text[j]) - DirLeft(lex, text, j + 1, DirOpener(text[j])) ==
            Ahead(lex, text, j, d) - 1
  {
    assert text[j] == text[j..j + 1][0] == Closing(d)[0];
    AheadTurns(lex, text, j, d);
    assert Turn(lex, text, j, d) == 1;
  }

  lemma DirectionalCloses(lex: Lexicon, text: string, j: nat, d: Delimiter, st: Scan)
    requires IsDirectionalSort(d) && Reads(text, j, Closing(d)) && !Escaped(text, j)
    requires !(d.SingleQuotes? && InsideWord(lex, text, j)) && st.stack != [] && Top(st.stack).Pair() == PairOf(d)
    requires Ahead(lex, text, j, d) == PairCount(st.stack, PairOf(d))
    requires PairCount(st.stack, PairOf(d)) > 1 || !lex.internalMark(text, j, Top(st.stack).offset)
    ensures StepAt(lex, text, j, st) == Next(j + 1, Popped(st))
  {
    SurplusIs(lex, text, j, d);
    BalancedClose(lex, text, j, st.stack, PairOf(d));
    assert StepAt(lex, text, j, st) == DirCloseStep(lex, text, j, st);
  }

  lemma StraightCloses(lex: Lexicon, text: string, j: nat, single: bool, st: Scan)
    requires Reads(text, j, Closing(Straight(single))) && !Escaped(text, j) && st.stack != []
    requires Top(st.stack).Pair() == PairOf(Straight(single)) && !(single && InsideWord(lex, text, j))
    requires !OpeningContext(lex, text, j) && ClosingContext(lex, text, j)
    requires Ahead(lex, text, j, Straight(single)) == PairCount(st.stack, PairOf(Straight(single)))
    requires PairCount(st.stack, PairOf(Straight(single))) > 1 || !lex.internalMark(text, j, Top(st.stack).offset)
    ensures StepAt(lex, text, j, st) == Next(j + 1, Popped(st))
  {
    var c, d := text[j], Straight(single);
    assert c == text[j..j + 1][0] == Closing(d)[0];
    AheadTurns(lex, text, j, d);
    assert Turn(lex, text, j, d) == 1;
    assert PairOf(d) == ([c], [c]);
  }

  lemma CloseStep(lex: Lexicon, text: string, i: nat, j: nat, d: Delimiter, around: seq<Delimiter>, st: Scan)
    requires Closing(d) != [] && Reads(text, j, Closing(d)) && !Escaped(text, j)
    requires CloseClear(lex, text, i, j, d, around)
    requires Alike(st.stack, around + [d]) && Top(st.stack).offset == i
    requires IsQuoteSort(d) ==> Ahead(lex, text, j, d) == PairCount(st.stack, PairOf(d))
    ensures StepAt(lex, text, j, st) == Next(j + |Closing(d)|, Popped(st))
  {
    assert Top(st.stack).Pair() == PairOf(d);
    if IsQuoteSort(d) {
      AlikeCounts(Popped(st).stack, around, d);
      assert PairCount(st.stack, PairOf(d)) == PairCount(Popped(st).stack, PairOf(d)) + 1;
      if d.Straight? { StraightCloses(lex, text, j, d.single, st); } else { DirectionalCloses(lex, text, j, d, st); }
    } else if d.Ticks? {
      TicksClose(lex, text, j, d.n, st);
    } else {
      BracketCloses(lex, text, j, d, st);
    }
  }

  lemma LeafStep(lex: Lexicon, text: string, i: nat, t: Text, around: seq<Delimiter>, st: Scan)
    requires IsLeaf(t) && Reads(text, i, Print(t)) && ClearHere(lex, text, i, t, around) && !Escaped(text, i)
    requires Alike(st.stack, around)
    ensures StepAt(lex, text, i, st) == Next(i + 1, st)
  {
    LeafReads(text, i, t);
    if t.Stray? {
      AlikeStray(st.stack, around, [t.c]);
      if st.stack != [] { assert around[|around| - 1] in around; }
    }
  }

  // ---------------------------------------------------------------- a whole text

  function Outlook(lex: Lexicon, text: string, i: nat): Delimiter -> int {
    (d: Delimiter) => Ahead(lex, text, i, d)
  }

  /** As many closing quotes are still to come as there are open frames. */
  ghost predicate Balanced(ahead: Delimiter -> int, stack: seq<Frame>) {
    forall d :: IsQuoteSort(d) ==> ahead(d) == PairCount(stack, PairOf(d))
  }

  lemma BalancedAfter(lex: Lexicon, text: string, i: nat, t: Text, around: seq<Delimiter>, stack: seq<Frame>, end: nat)
    requires Stands(lex, text, i, t, around) && end == i + |Print(t)|
    ensures Balanced(Outlook(lex, text, i), stack) <==> Balanced(Outlook(lex, text, end), stack)
  {
    forall d ensures Outlook(lex, text, i)(d) == Outlook(lex, text, end)(d) {
      AheadSame(lex, text, i, t, around, d);
    }
  }

  lemma BalancedInside(lex: Lexicon, text: string, i: nat, t: Text, around: seq<Delimiter>, stack: seq<Frame>, f: Frame)
    requires t.Group? && Reads(text, i, Print(t)) && Opening(t.d) != [] && i < |text| && !Escaped(text, i)
    requires OpenClear(lex, text, i, t.d, around) && f.Pair() == PairOf(t.d) && Balanced(Outlook(lex, text, i), stack)
    ensures Balanced(Outlook(lex, text, InnerAt(i, t)), stack + [f])
  {
    forall d | IsQuoteSort(d) ensures Outlook(lex, text, InnerAt(i, t))(d) == PairCount(stack + [f], PairOf(d)) {
      assert Outlook(lex, text, i)(d) == PairCount(stack, PairOf(d));
      GroupOpens(lex, text, i, t, around, d);
      PairCountPush(stack, f, PairOf(d));
      if d != t.d && PairOf(d) == PairOf(t.d) { ClosingTells(d, t.d); }
    }
  }

  lemma StepThen(lex: Lexicon, text: string, i: nat, st: Scan, j: nat, next: Scan, m: nat)
    requires i < j <= m < |text| && StepAt(lex, text, i, st) == Next(j, next)
    ensures Reach(lex, text, i, st, m) == Reach(lex, text, j, next, m)
  {
  }

  lemma PairRead(lex: Lexicon, text: string, i: nat, t: Text, st: Scan, m: nat)
    requires t.Escape? && Reads(text, i, Print(t)) && !Escaped(text, i) && i + 2 <= m < |text|
    ensures Reach(lex, text, i, st, m) == Reach(lex, text, i + 2, st, m)
  {
    PairReads(text, i, t);
    EscapedPair(text, i);
    StepThen(lex, text, i, st, i + 1, st, m);
    StepThen(lex, text, i + 1, st, i + 2, st, m);
  }

  lemma AlikePush(stack: seq<Frame>, around: seq<Delimiter>, f: Frame, d: Delimiter)
    requires Alike(stack, around) && f.Pair() == PairOf(d) && f.closing != []
    ensures Alike(stack + [f], around + [d])
  {
  }

  /** What the replay needs to read a text: its groups fit, and the frames and quotes to come agree. */
  ghost predicate Ready(lex: Lexicon, text: string, i: nat, t: Text, around: seq<Delimiter>, stack: seq<Frame>) {
    && Stands(lex, text, i, t, around) && Alike(stack, around) && Balanced(Outlook(lex, text, i), stack)
    && |stack| + Height(t) <= MAX_DEPTH
  }

  /** The opening delimiter of a group pushes its frame. */
  lemma OpensFrame(lex: Lexicon, text: string, i: nat, t: Text, around: seq<Delimiter>, st: Scan)
    requires t.Group? && Ready(lex, text, i, t, around, st.stack)
    ensures i < InnerAt(i, t)
    ensures StepAt(lex, text, i, st) ==
            Next(InnerAt(i, t), st.(stack := st.stack + [Opened(lex, text, i, t.d, st.stack)]))
  {
    GroupIsClear(lex, text, i, t, around);
    ReadsGroup(text, i, t);
    HeightAfter(t);
    OpenStep(lex, text, i, t.d, around, st);
  }

  /** With the frame of a group the replay is ready for the inside. */
  lemma ReadyInside(lex: Lexicon, text: string, i: nat, t: Text, around: seq<Delimiter>, st: Scan)
    requires t.Group? && Ready(lex, text, i, t, around, st.stack)
    ensures Ready(lex, text, InnerAt(i, t), t.inner, around + [t.d],
                  st.stack + [Opened(lex, text, i, t.d, st.stack)])
  {
    var f := Opened(lex, text, i, t.d, st.stack);
    GroupIsClear(lex, text, i, t, around);
    ReadsGroup(text, i, t);
    HeightAfter(t);
    OpenAhead(lex, text, i, t.d, around, t.d);
    AlikePush(st.stack, around, f, t.d);
    BalancedInside(lex, text, i, t, around, st.stack, f);
  }

  /** After the inside the closing delimiter takes the frame away again. */
  lemma ClosesAgain(lex: Lexicon, text: string, i: nat, t: Text, around: seq<Delimiter>, st: Scan, f: Frame)
    requires t.Group? && Reads(text, i, Print(t)) && RestAt(i, t) <= |text| && ClearHere(lex, text, i, t, around)
    requires f.offset == i && Alike(st.stack + [f], around + [t.d]) && !Escaped(text, CloseAt(i, t))
    requires Balanced(Outlook(lex, text, CloseAt(i, t)), st.stack + [f])
    ensures CloseAt(i, t) < RestAt(i, t) && !Escaped(text, RestAt(i, t))
    ensures StepAt(lex, text, CloseAt(i, t), st.(stack := st.stack + [f])) == Next(RestAt(i, t), st)
  {
    var inside := st.(stack := st.stack + [f]);
    GroupIsClear(lex, text, i, t, around);
    ReadsGroup(text, i, t);
    assert IsQuoteSort(t.d) ==> Outlook(lex, text, CloseAt(i, t))(t.d) == PairCount(inside.stack, PairOf(t.d));
    CloseStep(lex, text, i, CloseAt(i, t), t.d, around, inside);
    CloseAhead(lex, text, i, CloseAt(i, t), t.d, around, t.d);
    assert Popped(inside).stack == st.stack;
  }

  /** Past its first piece a text is still ready. */
  lemma ReadyAfter(lex: Lexicon, text: string, i: nat, t: Text, around: seq<Delimiter>, stack: seq<Frame>)
    requires !t.End? && Ready(lex, text, i, t, around, stack)
    requires !Escaped(text, RestAt(i, t))
    ensures Ready(lex, text, RestAt(i, t), t.rest, around, stack)
    ensures i + |Print(t)| == RestAt(i, t) + |Print(t.rest)|
  {
    StandsAfter(lex, text, i, t, around);
    HeightAfter(t);
    BalancedRest(lex, text, i, t, RestAt(i, t), t.rest, around, stack, i + |Print(t)|);
  }

  /** Two texts that end at the same place see the same quotes to come. */
  lemma BalancedRest(lex: Lexicon, text: string, i: nat, t: Text, j: nat, u: Text, around: seq<Delimiter>,
                     stack: seq<Frame>, end: nat)
    requires Stands(lex, text, i, t, around) && Stands(lex, text, j, u, around)
    requires i + |Print(t)| == j + |Print(u)| == end
    ensures Balanced(Outlook(lex, text, i), stack) <==> Balanced(Outlook(lex, text, j), stack)
  {
    BalancedAfter(lex, text, i, t, around, stack, end);
    BalancedAfter(lex, text, j, u, around, stack, end);
  }

  lemma StandsAfter(lex: Lexicon, text: string, i: nat, t: Text, around: seq<Delimiter>)
    requires !t.End? && Stands(lex, text, i, t, around) && !Escaped(text, RestAt(i, t))
    ensures Stands(lex, text, RestAt(i, t), t.rest, around)
    ensures i + |Print(t)| == RestAt(i, t) + |Print(t.rest)|
  {
    RestReads(text, i, t);
  }

  lemma HeightAfter(t: Text)
    requires !t.End?
    ensures Height(t.rest) <= Height(t) && (t.Group? ==> Height(t.inner) < Height(t))
  {
  }

  lemma TextEnds(lex: Lexicon, text: string, i: nat, t: Text, around: seq<Delimiter>, end: nat)
    requires Stands(lex, text, i, t, around) && end == i + |Print(t)|
    ensures end <= |text| && !Escaped(text, end)
  {
    AheadSame(lex, text, i, t, around, Round);
  }

  lemma ReadyEnds(lex: Lexicon, text: string, i: nat, t: Text, around: seq<Delimiter>, stack: seq<Frame>, end: nat)
    requires Ready(lex, text, i, t, around, stack) && end == i + |Print(t)|
    ensures end <= |text| && !Escaped(text, end) && Balanced(Outlook(lex, text, end), stack)
  {
    TextEnds(lex, text, i, t, around, end);
    BalancedAfter(lex, text, i, t, around, stack, end);
  }

  lemma InsideEnds(lex: Lexicon, text: string, i: nat, t: Text, around: seq<Delimiter>, st: Scan, frames: seq<Frame>)
    requires t.Group? && Ready(lex, text, i, t, around, st.stack)
    requires frames == st.stack + [Opened(lex, text, i, t.d, st.stack)]
    ensures Alike(frames, around + [t.d]) && CloseAt(i, t) <= |text| && !Escaped(text, CloseAt(i, t))
    ensures Balanced(Outlook(lex, text, CloseAt(i, t)), frames)
  {
    ReadyInside(lex, text, i, t, around, st);
    ReadyEnds(lex, text, InnerAt(i, t), t.inner, around + [t.d], frames, CloseAt(i, t));
  }

  lemma ReadyHere(lex: Lexicon, text: string, i: nat, t: Text, around: seq<Delimiter>, stack: seq<Frame>)
    requires !t.End? && Ready(lex, text, i, t, around, stack)
    ensures Reads(text, i, Print(t)) && RestAt(i, t) <= |text| && ClearHere(lex, text, i, t, around)
    ensures Alike(stack, around) && !Escaped(text, i)
  {
  }

  lemma GroupClosesAgain(lex: Lexicon, text: string, i: nat, t: Text, around: seq<Delimiter>, st: Scan)
    requires t.Group? && Ready(lex, text, i, t, around, st.stack)
    ensures CloseAt(i, t) < RestAt(i, t) <= |text|
    ensures StepAt(lex, text, CloseAt(i, t), st.(stack := st.stack + [Opened(lex, text, i, t.d, st.stack)])) ==
            Next(RestAt(i, t), st)
  {
    var f := Opened(lex, text, i, t.d, st.stack);
    ReadyHere(lex, text, i, t, around, st.stack);
    InsideEnds(lex, text, i, t, around, st, st.stack + [f]);
    ClosesAgain(lex, text, i, t, around, st, f);
  }

  lemma NotEscapedPast(lex: Lexicon, text: string, i: nat, t: Text, around: seq<Delimiter>)
    requires !t.End? && Stands(lex, text, i, t, around)
    ensures RestAt(i, t) <= |text| && !Escaped(text, RestAt(i, t))
  {
    RestReads(text, i, t);
    if t.Group? {
      GroupAhead(lex, text, i, t, around, t.d);
    } else if t.Escape? {
      PairAhead(lex, text, i, t, Round);
    } else {
      LeafAhead(lex, text, i, t, around, Round);
    }
  }

  lemma GroupSteps(lex: Lexicon, text: string, i: nat, t: Text, around: seq<Delimiter>, st: Scan, inside: Scan,
                   m: nat)
    requires t.Group? && Ready(lex, text, i, t, around, st.stack) && RestAt(i, t) <= m < |text|
    requires inside == st.(stack := st.stack + [Opened(lex, text, i, t.d, st.stack)])
    requires Reach(lex, text, InnerAt(i, t), inside, m) == Reach(lex, text, CloseAt(i, t), inside, m)
    ensures Reach(lex, text, i, st, m) == Reach(lex, text, RestAt(i, t), st, m)
  {
    OpensFrame(lex, text, i, t, around, st);
    StepThen(lex, text, i, st, InnerAt(i, t), inside, m);
    GroupClosesAgain(lex, text, i, t, around, st);
    StepThen(lex, text, CloseAt(i, t), inside, RestAt(i, t), st, m);
  }

  /** Reading a well-nested text leaves the scan as it was. */
  lemma {:induction false} ReadsThrough(lex: Lexicon, text: string, i: nat, t: Text, around: seq<Delimiter>, st: Scan,
                                        end: nat, m: nat)
    requires Ready(lex, text, i, t, around, st.stack) && end == i + |Print(t)| && end <= m < |text|
    ensures Reach(lex, text, i, st, m) == Reach(lex, text, end, st, m)
    decreases t, 1
  {
    if !t.End? {
      NotEscapedPast(lex, text, i, t, around);
      ReadyAfter(lex, text, i, t, around, st.stack);
      PieceReadsThrough(lex, text, i, t, around, st, RestAt(i, t), m);
      ReadsThrough(lex, text, RestAt(i, t), t.rest, around, st, end, m);
    }
  }

  lemma {:induction false} PieceReadsThrough(lex: Lexicon, text: string, i: nat, t: Text, around: seq<Delimiter>,
                                             st: Scan, next: nat, m: nat)
    requires !t.End? && Ready(lex, text, i, t, around, st.stack) && next == RestAt(i, t) && next <= m < |text|
    ensures Reach(lex, text, i, st, m) == Reach(lex, text, next, st, m)
    decreases t, 0
  {
    if t.Group? {
      var inside := st.(stack := st.stack + [Opened(lex, text, i, t.d, st.stack)]);
      ReadyInside(lex, text, i, t, around, st);
      ReadsThrough(lex, text, InnerAt(i, t), t.inner, around + [t.d], inside, CloseAt(i, t), m);
      GroupSteps(lex, text, i, t, around, st, inside, m);
    } else {
      SmallPieceReadsThrough(lex, text, i, t, around, st, m);
    }
  }

  lemma SmallPieceReadsThrough(lex: Lexicon, text: string, i: nat, t: Text, around: seq<Delimiter>, st: Scan, m: nat)
    requires !t.End? && !t.Group? && Ready(lex, text, i, t, around, st.stack) && RestAt(i, t) <= m < |text|
    ensures Reach(lex, text, i, st, m) == Reach(lex, text, RestAt(i, t), st, m)
  {
    ReadyHere(lex, text, i, t, around, st.stack);
    if t.Escape? {
      PairRead(lex, text, i, t, st, m);
    } else {
      LeafStep(lex, text, i, t, around, st);
      StepThen(lex, text, i, st, i + 1, st, m);
    }
  }
}
