/** Where a marker stands in a well-nested text decides whether the replay finds it enclosed. */
module DelimiterEnclosure {
  import opened Common
  import opened DelimiterReplay
  import opened DelimiterNesting
  import opened DelimiterReading

  /** A group around a place, and the offset at which it opens. */
  datatype Around = Around(d: Delimiter, at: nat)

  /** The groups around offset `m`, the outermost first, if a piece of the text begins or ends there. */
  function Where(t: Text, i: nat, m: nat): Option<seq<Around>> {
    if m == i then Some([])
    else if t.End? then None
    else if RestAt(i, t) <= m then Where(t.rest, RestAt(i, t), m)
    else if t.Group? && InnerAt(i, t) <= m <= CloseAt(i, t) then
      match Where(t.inner, InnerAt(i, t), m)
      case None => None
      case Some(places) => Some([Around(t.d, i)] + places)
    else None
  }

  predicate IsFrameOf(f: Frame, place: Around) {
    && f.Pair() == PairOf(place.d) && f.offset == place.at
    && (!IsDirectionalSort(place.d) ==> f.continuation.None?)
  }

  /** On top of `outer` the stack holds exactly the frames of the places. */
  predicate Holds(stack: seq<Frame>, outer: seq<Frame>, places: seq<Around>) {
    && |stack| == |outer| + |places| && stack[..|outer|] == outer
    && forall k :: 0 <= k < |places| ==> IsFrameOf(stack[|outer| + k], places[k])
  }

  predicate ArrivesIn(a: Arrival, st: Scan, places: seq<Around>) {
    a.At? && a.scan.malformed == st.malformed && Holds(a.scan.stack, st.stack, places)
  }

  lemma HoldsUnder(stack: seq<Frame>, outer: seq<Frame>, f: Frame, place: Around, places: seq<Around>)
    requires Holds(stack, outer + [f], places) && IsFrameOf(f, place)
    ensures Holds(stack, outer, [place] + places)
  {
    assert stack[..|outer|] == stack[..|outer| + 1][..|outer|] == outer;
    assert stack[|outer|] == stack[..|outer| + 1][|outer|] == f;
  }

  /** The replay reaches every place with the frames of the groups around it, and no other. */
  lemma {:induction false} ReachesPlace(lex: Lexicon, text: string, i: nat, t: Text, around: seq<Delimiter>, st: Scan,
                                        m: nat)
    requires Ready(lex, text, i, t, around, st.stack) && i <= m < |text| && Where(t, i, m).Some?
    ensures ArrivesIn(Reach(lex, text, i, st, m), st, Where(t, i, m).value)
    decreases t
  {
    if m != i && RestAt(i, t) <= m {
      NotEscapedPast(lex, text, i, t, around);
      ReadyAfter(lex, text, i, t, around, st.stack);
      PieceReadsThrough(lex, text, i, t, around, st, RestAt(i, t), m);
      ReachesPlace(lex, text, RestAt(i, t), t.rest, around, st, m);
    } else if m != i {
      var f := Opened(lex, text, i, t.d, st.stack);
      var inside := st.(stack := st.stack + [f]);
      ReadyInside(lex, text, i, t, around, st);
      ReachesPlace(lex, text, InnerAt(i, t), t.inner, around + [t.d], inside, m);
      InsideReached(lex, text, i, t, around, st, inside, m, Where(t.inner, InnerAt(i, t), m).value);
    }
  }

  lemma InsideReached(lex: Lexicon, text: string, i: nat, t: Text, around: seq<Delimiter>, st: Scan, inside: Scan,
                      m: nat, places: seq<Around>)
    requires t.Group? && Ready(lex, text, i, t, around, st.stack) && InnerAt(i, t) <= m < |text|
    requires inside == st.(stack := st.stack + [Opened(lex, text, i, t.d, st.stack)])
    requires ArrivesIn(Reach(lex, text, InnerAt(i, t), inside, m), inside, places)
    ensures ArrivesIn(Reach(lex, text, i, st, m), st, [Around(t.d, i)] + places)
  {
    OpensFrame(lex, text, i, t, around, st);
    StepThen(lex, text, i, st, InnerAt(i, t), inside, m);
    var a := Reach(lex, text, InnerAt(i, t), inside, m);
    HoldsUnder(a.scan.stack, st.stack, Opened(lex, text, i, t.d, st.stack), Around(t.d, i), places);
  }

  /** The text begins with the print of `t`, whose groups fit, and has no unpaired quotes after it. */
  ghost predicate Begins(lex: Lexicon, text: string, t: Text) {
    && Reads(text, 0, Print(t)) && Clear(lex, text, 0, t, []) && Height(t) <= 256
    && Paired(lex, text, |Print(t)|)
  }

  /** No quote of the text from `i` on is unpaired. */
  ghost predicate Paired(lex: Lexicon, text: string, i: nat) {
    forall d :: IsQuoteSort(d) ==> Outlook(lex, text, i)(d) == 0
  }

  lemma BeginsReady(lex: Lexicon, text: string, t: Text)
    requires Begins(lex, text, t)
    ensures Ready(lex, text, 0, t, [], [])
  {
    BalancedAfter(lex, text, 0, t, [], [], |Print(t)|);
  }

  /** A bracket that editors put around a marker at the beginning of a line. */
  predicate Editorial(text: string, m: nat, places: seq<Around>)
    requires m < |text|
  {
    m >= 1 && places == [Around(Square, m - 1)] && (m < 2 || text[m - 2] == '\n')
  }

  lemma EditorialIff(text: string, m: nat, st: Scan, places: seq<Around>)
    requires m < |text| && !st.malformed && Holds(st.stack, [], places)
    requires forall k :: 0 <= k < |places| ==> Closing(places[k].d) != []
    ensures Encloses(text, m, st) <==> places != [] && !Editorial(text, m, places)
  {
    assert |st.stack| == |places|;
    if |places| == 1 {
      assert IsFrameOf(st.stack[0], places[0]);
      if PairOf(places[0].d) == ("[", "]") { ClosingTells(places[0].d, Square); }
    }
  }

  lemma {:induction false} PlacesClose(lex: Lexicon, text: string, t: Text, i: nat, around: seq<Delimiter>, m: nat)
    requires Clear(lex, text, i, t, around) && Where(t, i, m).Some?
    ensures forall k :: 0 <= k < |Where(t, i, m).value| ==> Closing(Where(t, i, m).value[k].d) != []
    decreases t
  {
    if m != i {
      if RestAt(i, t) <= m {
        PlacesClose(lex, text, t.rest, RestAt(i, t), around, m);
      } else {
        GroupIsClear(lex, text, i, t, around);
        PlacesClose(lex, text, t.inner, InnerAt(i, t), around + [t.d], m);
      }
    }
  }

  /** In well-nested text a marker is enclosed exactly when it stands inside a group, an editorial bracket
      excepted. */
  lemma EnclosedIffInside(lex: Lexicon, text: string, t: Text, m: nat)
    requires Begins(lex, text, t) && m < |text| && Where(t, 0, m).Some?
    ensures var places := Where(t, 0, m).value;
            EnclosedFromZero(lex, text, m) <==> places != [] && !Editorial(text, m, places)
  {
    var places := Where(t, 0, m).value;
    BeginsReady(lex, text, t);
    ReachesPlace(lex, text, 0, t, [], EMPTY, m);
    PlacesClose(lex, text, t, 0, [], m);
    EditorialIff(text, m, Reach(lex, text, 0, EMPTY, m).scan, places);
  }

  /** A marker after well-nested text is not enclosed. */
  lemma NotEnclosedAfter(lex: Lexicon, text: string, t: Text)
    requires Begins(lex, text, t) && |Print(t)| < |text|
    ensures !EnclosedFromZero(lex, text, |Print(t)|)
  {
    BeginsReady(lex, text, t);
    ReadsThrough(lex, text, 0, t, [], EMPTY, |Print(t)|, |Print(t)|);
  }

  /** Nor is anything pending after the print of a whole text. */
  lemma WholePrintBegins(lex: Lexicon, t: Text)
    requires Clear(lex, Print(t), 0, t, []) && Height(t) <= 256
    ensures Begins(lex, Print(t), t)
  {
    var text := Print(t);
    assert text[0..|text|] == text;
  }

  // ---------------------------------------------------------------- crossed delimiters

  /** The token at `i` can only close. */
  predicate OnlyCloses(lex: Lexicon, text: string, i: nat)
    requires i < |text|
  {
    var c := text[i];
    && !Escaped(text, i)
    && (|| IsClosingBracket(c) || c == '\U{201D}' || c == '\U{BB}' || c == '\U{203A}'
        || (c == '\U{2019}' && !InsideWord(lex, text, i))
        || (c == '\"' && ClosingContext(lex, text, i))
        || (c == '\'' && !InsideWord(lex, text, i) && ClosingContext(lex, text, i)))
  }

  lemma {:induction false} OpenIsCounted(stack: seq<Frame>, k: nat)
    requires k < |stack|
    ensures ClosingCount(stack, stack[k].closing) > 0
  {
    if k < |stack| - 1 { OpenIsCounted(stack[..|stack| - 1], k); }
  }

  /** A token that closes a frame below the top, but not the top, makes the text malformed. */
  lemma CrossedIsMalformed(lex: Lexicon, text: string, i: nat, st: Scan, k: nat)
    requires i < |text| && OnlyCloses(lex, text, i) && k < |st.stack|
    requires st.stack[k].closing == [text[i]] && Top(st.stack).closing != [text[i]]
    ensures StepAt(lex, text, i, st) == Next(i + 1, Scan(st.stack, true))
  {
    OpenIsCounted(st.stack, k);
  }

  lemma StepStaysMalformed(lex: Lexicon, text: string, i: nat, st: Scan)
    requires i < |text| && st.malformed
    ensures var r := StepAt(lex, text, i, st); r.Next? ==> r.scan.malformed
  {
  }

  lemma {:induction false} StaysMalformed(lex: Lexicon, text: string, i: nat, st: Scan, m: nat)
    requires i <= m < |text| && st.malformed
    ensures var a := Reach(lex, text, i, st, m); a.At? ==> a.scan.malformed
    decreases m - i
  {
    if i < m {
      StepStaysMalformed(lex, text, i, st);
      var r := StepAt(lex, text, i, st);
      if r.Next? && r.index <= m { StaysMalformed(lex, text, r.index, r.scan, m); }
    }
  }

  /** From a crossed delimiter on every marker that is reached counts as enclosed. */
  lemma EnclosedAfterCrossing(lex: Lexicon, text: string, i: nat, st: Scan, k: nat, m: nat)
    requires i < m < |text| && OnlyCloses(lex, text, i) && k < |st.stack|
    requires st.stack[k].closing == [text[i]] && Top(st.stack).closing != [text[i]]
    ensures var a := Reach(lex, text, i, st, m); a.At? ==> Encloses(text, m, a.scan)
  {
    CrossedIsMalformed(lex, text, i, st, k);
    StepThen(lex, text, i, st, i + 1, Scan(st.stack, true), m);
    StaysMalformed(lex, text, i + 1, Scan(st.stack, true), m);
  }

  predicate IsBracket(d: Delimiter) { d.Round? || d.Square? || d.Curly? }

  predicate OnlyBrackets(around: seq<Delimiter>) { forall k :: 0 <= k < |around| ==> IsBracket(around[k]) }

  lemma BracketsBalance(stack: seq<Frame>, around: seq<Delimiter>, ahead: Delimiter -> int)
    requires Alike(stack, around) && OnlyBrackets(around)
    ensures Balanced(ahead, stack) <==> forall d :: IsQuoteSort(d) ==> ahead(d) == 0
  {
    forall d | IsQuoteSort(d) ensures PairCount(stack, PairOf(d)) == 0 {
      AlikeCounts(stack, around, d);
      assert Closing(d) != [];
    }
  }

  /** Inside open brackets a well-nested text is read and leaves them open. */
  lemma ReadInBrackets(lex: Lexicon, text: string, i: nat, t: Text, around: seq<Delimiter>, st: Scan, j: nat, m: nat)
    requires Stands(lex, text, i, t, around) && Alike(st.stack, around) && OnlyBrackets(around)
    requires |around| + Height(t) <= 256 && j == i + |Print(t)| && Paired(lex, text, j) && j <= m < |text|
    ensures Reach(lex, text, i, st, m) == Reach(lex, text, j, st, m)
    ensures Paired(lex, text, i)
  {
    BracketsBalance(st.stack, around, Outlook(lex, text, j));
    BalancedAfter(lex, text, i, t, around, st.stack, j);
    BracketsBalance(st.stack, around, Outlook(lex, text, i));
    ReadsThrough(lex, text, i, t, around, st, j, m);
  }

  lemma BracketOpens(lex: Lexicon, text: string, i: nat, d: Delimiter, around: seq<Delimiter>, st: Scan, m: nat)
    requires IsBracket(d) && Reads(text, i, Opening(d)) && !Escaped(text, i) && i < m < |text|
    requires Alike(st.stack, around) && |around| < 256
    ensures var f := Frame(Opening(d), Closing(d), i, None);
            && Reach(lex, text, i, st, m) == Reach(lex, text, i + 1, st.(stack := st.stack + [f]), m)
            && Alike(st.stack + [f], around + [d])
  {
    var f := Frame(Opening(d), Closing(d), i, None);
    OpenStep(lex, text, i, d, around, st);
    StepThen(lex, text, i, st, i + 1, st.(stack := st.stack + [f]), m);
    AlikePush(st.stack, around, f, d);
  }

  lemma BracketIsNoQuote(lex: Lexicon, text: string, i: nat, d: Delimiter)
    requires IsBracket(d) && Reads(text, i, Opening(d)) && !Escaped(text, i)
    ensures !Escaped(text, i + 1)
    ensures Paired(lex, text, i + 1) ==> Paired(lex, text, i)
  {
    assert text[i] == text[i..i + 1][0] == Opening(d)[0];
    NotEscapedAfter(text, i);
    forall e | IsQuoteSort(e) ensures Outlook(lex, text, i)(e) == Outlook(lex, text, i + 1)(e) {
      AheadTurns(lex, text, i, e);
      NoTurn(lex, text, i, e);
    }
  }

  /** At `i` stands an opening bracket, and after it a well-nested text that ends at `j`. */
  predicate Unclosed(lex: Lexicon, text: string, i: nat, d: Delimiter, t: Text, around: seq<Delimiter>, j: nat) {
    && IsBracket(d) && Reads(text, i, Opening(d)) && Reads(text, i + 1, Print(t))
    && Clear(lex, text, i + 1, t, around + [d]) && j == i + 1 + |Print(t)|
  }

  lemma ReadUnclosed(lex: Lexicon, text: string, i: nat, d: Delimiter, t: Text, around: seq<Delimiter>, st: Scan,
                     j: nat, next: Scan, m: nat)
    requires Unclosed(lex, text, i, d, t, around, j) && !Escaped(text, i)
    requires OnlyBrackets(around) && Alike(st.stack, around) && |around| + 1 + Height(t) <= 256
    requires next == st.(stack := st.stack + [Frame(Opening(d), Closing(d), i, None)])
    requires j <= m < |text| && Paired(lex, text, j)
    ensures Reach(lex, text, i, st, m) == Reach(lex, text, j, next, m)
    ensures Paired(lex, text, i)
  {
    BracketIsNoQuote(lex, text, i, d);
    BracketOpens(lex, text, i, d, around, st, m);
    ReadInBrackets(lex, text, i + 1, t, around + [d], next, j, m);
  }

  lemma NotEscapedOver(lex: Lexicon, text: string, i: nat, d: Delimiter, t: Text, around: seq<Delimiter>, j: nat)
    requires Unclosed(lex, text, i, d, t, around, j) && !Escaped(text, i)
    ensures j <= |text| && !Escaped(text, j)
  {
    BracketIsNoQuote(lex, text, i, d);
    TextEnds(lex, text, i + 1, t, around + [d], j);
  }

  lemma CrossingCloses(lex: Lexicon, text: string, c: nat, outer: Delimiter, inner: Delimiter, st: Scan, m: nat)
    requires IsBracket(outer) && IsBracket(inner) && outer != inner && Reads(text, c, Closing(outer))
    requires !Escaped(text, c) && c < m < |text| && Alike(st.stack, [outer, inner])
    ensures var a := Reach(lex, text, c, st, m); a.At? ==> Encloses(text, m, a.scan)
  {
    assert text[c] == text[c..c + 1][0] == Closing(outer)[0];
    assert st.stack[0].Pair() == PairOf(outer) && st.stack[1].Pair() == PairOf(inner);
    EnclosedAfterCrossing(lex, text, c, st, 0, m);
  }

  /** A bracket opened at `a` and another opened inside it at `b` that is not closed when the first is, at `c`. */
  lemma CrossedFrom(lex: Lexicon, text: string, a: nat, outer: Delimiter, t: Text, b: nat, inner: Delimiter, u: Text,
                    c: nat, m: nat)
    requires Unclosed(lex, text, a, outer, t, [], b) && Unclosed(lex, text, b, inner, u, [outer], c)
    requires outer != inner && Reads(text, c, Closing(outer)) && !Escaped(text, a)
    requires Height(t) <= 255 && Height(u) <= 254 && Paired(lex, text, c) && c < m < |text|
    ensures var r := Reach(lex, text, a, EMPTY, m); r.At? ==> Encloses(text, m, r.scan)
    ensures Paired(lex, text, a)
  {
    var f, g := Frame(Opening(outer), Closing(outer), a, None), Frame(Opening(inner), Closing(inner), b, None);
    NotEscapedOver(lex, text, a, outer, t, [], b);
    NotEscapedOver(lex, text, b, inner, u, [outer], c);
    ReadUnclosed(lex, text, b, inner, u, [outer], Scan([f], false), c, Scan([f, g], false), m);
    ReadUnclosed(lex, text, a, outer, t, [], EMPTY, b, Scan([f], false), m);
    CrossingCloses(lex, text, c, outer, inner, Scan([f, g], false), m);
  }

  /** Brackets that cross, as in `( [ )`, after well-nested text: every marker that is reached after them counts
      as enclosed. */
  lemma CrossedBrackets(lex: Lexicon, text: string, s: Text, a: nat, outer: Delimiter, t: Text, b: nat,
                        inner: Delimiter, u: Text, c: nat, m: nat)
    requires Reads(text, 0, Print(s)) && Clear(lex, text, 0, s, []) && a == |Print(s)| && Height(s) <= 256
    requires Unclosed(lex, text, a, outer, t, [], b) && Unclosed(lex, text, b, inner, u, [outer], c)
    requires outer != inner && Reads(text, c, Closing(outer))
    requires Height(t) <= 255 && Height(u) <= 254 && Paired(lex, text, c) && c < m < |text|
    ensures Reach(lex, text, 0, EMPTY, m).At? ==> EnclosedFromZero(lex, text, m)
  {
    NotEscapedAfterText(lex, text, s, a);
    CrossedFrom(lex, text, a, outer, t, b, inner, u, c, m);
    ReadFromStart(lex, text, s, a, m);
  }

  lemma NotEscapedAfterText(lex: Lexicon, text: string, s: Text, a: nat)
    requires Reads(text, 0, Print(s)) && Clear(lex, text, 0, s, []) && a == |Print(s)|
    ensures !Escaped(text, a)
  {
    TextEnds(lex, text, 0, s, [], a);
  }

  lemma ReadFromStart(lex: Lexicon, text: string, s: Text, a: nat, m: nat)
    requires Reads(text, 0, Print(s)) && Clear(lex, text, 0, s, []) && a == |Print(s)| && Height(s) <= 256
    requires Paired(lex, text, a) && a <= m < |text|
    ensures var r := Reach(lex, text, a, EMPTY, m);
            EnclosedFromZero(lex, text, m) <==> r.At? && Encloses(text, m, r.scan)
    ensures Reach(lex, text, 0, EMPTY, m).At? ==> Reach(lex, text, a, EMPTY, m).At?
  {
    ReadInBrackets(lex, text, 0, s, [], EMPTY, a, m);
  }

  // ---------------------------------------------------------------- quotations of several paragraphs

  lemma {:induction false} TopRunIs(outer: seq<Frame>, frames: seq<Frame>, pair: (Token, Token))
    requires frames != [] && (forall k :: 0 <= k < |frames| ==> frames[k].Pair() == pair)
    requires outer == [] || Top(outer).Pair() != pair
    ensures TopRun(outer + frames) == |frames|
  {
    var n, stack := |frames|, outer + frames;
    if n > 1 {
      TopRunIs(outer, frames[..n - 1], pair);
      assert stack[..|stack| - 1] == outer + frames[..n - 1];
    }
  }

  lemma {:induction false} CountAtLeast(outer: seq<Frame>, frames: seq<Frame>, pair: (Token, Token))
    requires forall k :: 0 <= k < |frames| ==> frames[k].Pair() == pair
    ensures PairCount(outer + frames, pair) >= |frames|
  {
    var n, stack := |frames|, outer + frames;
    if n > 0 {
      CountAtLeast(outer, frames[..n - 1], pair);
      assert stack[..|stack| - 1] == outer + frames[..n - 1];
    }
  }

  /** How many of `n` frames stay open below a closing quote, when `more` closing quotes can still be matched. */
  function Kept(n: nat, more: int): nat
    requires n > 0
  {
    if more < 0 then 0 else if more < n - 1 then more else n - 1
  }

  /** Every paragraph of a quotation opens it again.  A closing quote that ends the quotation closes all of these
      frames but those for which closing quotes are still to come; any other closes one. */
  lemma QuotationCloses(lex: Lexicon, text: string, j: nat, d: Delimiter, st: Scan, outer: seq<Frame>,
                        frames: seq<Frame>)
    requires IsDirectionalSort(d) && Reads(text, j, Closing(d)) && !Escaped(text, j)
    requires !(d.SingleQuotes? && InsideWord(lex, text, j)) && st.stack == outer + frames && |frames| >= 2
    requires forall k :: 0 <= k < |frames| ==> frames[k].Pair() == PairOf(d)
    requires outer == [] || Top(outer).Pair() != PairOf(d)
    ensures var last := frames[|frames| - 1].continuation;
            var kept := if last.Some? && lex.terminalClose(text, j, last.value)
                        then Kept(|frames|, Ahead(lex, text, j + 1, d)) else |frames| - 1;
            StepAt(lex, text, j, st) == Next(j + 1, st.(stack := outer + frames[..kept]))
  {
    assert Top(st.stack) == frames[|frames| - 1];
    ClosesBy(lex, text, j, d, st);
    CloseKeeps(lex, text, j, st.stack, PairOf(d), Ahead(lex, text, j + 1, d), outer, frames);
  }

  lemma ClosesBy(lex: Lexicon, text: string, j: nat, d: Delimiter, st: Scan)
    requires IsDirectionalSort(d) && Reads(text, j, Closing(d)) && !Escaped(text, j)
    requires !(d.SingleQuotes? && InsideWord(lex, text, j)) && st.stack != [] && Top(st.stack).Pair() == PairOf(d)
    ensures var stack := AfterMatchingClose(lex, text, j, st.stack, PairOf(d), Ahead(lex, text, j + 1, d));
            StepAt(lex, text, j, st) == Next(j + 1, st.(stack := stack))
  {
    SurplusIs(lex, text, j, d);
    AheadTurns(lex, text, j, d);
    assert StepAt(lex, text, j, st) == DirCloseStep(lex, text, j, st);
  }

  lemma CloseKeeps(lex: Lexicon, text: string, j: nat, stack: seq<Frame>, pair: (Token, Token), surplus: int,
                   outer: seq<Frame>, frames: seq<Frame>)
    requires stack == outer + frames && |frames| >= 2 && (outer == [] || Top(outer).Pair() != pair)
    requires forall k :: 0 <= k < |frames| ==> frames[k].Pair() == pair
    ensures var last := frames[|frames| - 1].continuation;
            var kept := if last.Some? && lex.terminalClose(text, j, last.value)
                        then Kept(|frames|, surplus) else |frames| - 1;
            AfterMatchingClose(lex, text, j, stack, pair, surplus) == outer + frames[..kept]
  {
    CountAtLeast(outer, frames, pair);
    UnmatchedIs(outer, frames[..|frames| - 1], pair, surplus);
    LastCloses(lex, text, j, stack, pair, surplus, outer, frames);
  }

  lemma LastCloses(lex: Lexicon, text: string, j: nat, stack: seq<Frame>, pair: (Token, Token), surplus: int,
                   outer: seq<Frame>, frames: seq<Frame>)
    requires stack == outer + frames && |frames| >= 2 && frames[|frames| - 1].Pair() == pair
    requires Unmatched(outer + frames[..|frames| - 1], pair, surplus) == |frames| - 1 - Kept(|frames|, surplus)
    ensures var last := frames[|frames| - 1].continuation;
            var kept := if last.Some? && lex.terminalClose(text, j, last.value)
                        then Kept(|frames|, surplus) else |frames| - 1;
            AfterClose(lex, text, j, stack, pair, surplus) == outer + frames[..kept]
  {
    var n := |frames|;
    var rest := stack[..|stack| - 1];
    assert rest == outer + frames[..n - 1] && Top(stack) == frames[n - 1];
    CloseDrops(lex, text, j, stack, pair, surplus, frames[n - 1], rest);
    FirstOf(outer, frames, rest, n - 1);
    FirstOf(outer, frames, rest, Kept(n, surplus));
  }

  lemma CloseDrops(lex: Lexicon, text: string, j: nat, stack: seq<Frame>, pair: (Token, Token), surplus: int, f: Frame,
                   rest: seq<Frame>)
    requires stack != [] && f == Top(stack) && f.Pair() == pair && rest == stack[..|stack| - 1]
    ensures AfterClose(lex, text, j, stack, pair, surplus) ==
            if f.continuation.Some? && lex.terminalClose(text, j, f.continuation.value)
            then rest[..|rest| - Unmatched(rest, pair, surplus)] else rest
  {
    assert rest[..|rest| - 0] == rest;
  }

  lemma UnmatchedIs(outer: seq<Frame>, below: seq<Frame>, pair: (Token, Token), surplus: int)
    requires below != [] && (forall k :: 0 <= k < |below| ==> below[k].Pair() == pair)
    requires outer == [] || Top(outer).Pair() != pair
    ensures Unmatched(outer + below, pair, surplus) == |below| - Kept(|below| + 1, surplus)
  {
    TopRunIs(outer, below, pair);
    assert Top(outer + below) == below[|below| - 1];
  }

  lemma FirstOf(outer: seq<Frame>, frames: seq<Frame>, rest: seq<Frame>, kept: nat)
    requires kept < |frames| && rest == outer + frames[..|frames| - 1]
    ensures rest[..|outer| + kept] == outer + frames[..kept]
  {
  }

  /** The last open quote of its sort is not closed by a mark that looks like an apostrophe or a measurement, nor
      by one of several closing quotes before the last. */
  lemma InternalMarkIsPassed(lex: Lexicon, text: string, j: nat, d: Delimiter, st: Scan)
    requires IsDirectionalSort(d) && Reads(text, j, Closing(d)) && !Escaped(text, j)
    requires !(d.SingleQuotes? && InsideWord(lex, text, j)) && st.stack != [] && Top(st.stack).Pair() == PairOf(d)
    requires PairCount(st.stack, PairOf(d)) == 1
    requires Ahead(lex, text, j + 1, d) >= 1 || lex.internalMark(text, j, Top(st.stack).offset)
    ensures StepAt(lex, text, j, st) == Next(j + 1, st)
  {
    ClosesBy(lex, text, j, d, st);
  }

  /** The same for straight quotes, where they can close. */
  lemma InternalStraightIsPassed(lex: Lexicon, text: string, j: nat, single: bool, st: Scan)
    requires Reads(text, j, Closing(Straight(single))) && !Escaped(text, j) && !(single && InsideWord(lex, text, j))
    requires st.stack != [] && Top(st.stack).Pair() == PairOf(Straight(single)) && ClosingContext(lex, text, j)
    requires PairCount(st.stack, PairOf(Straight(single))) == 1
    requires Ahead(lex, text, j + 1, Straight(single)) >= 1 || lex.internalMark(text, j, Top(st.stack).offset)
    ensures StepAt(lex, text, j, st) == Next(j + 1, st)
  {
    assert text[j] == text[j..j + 1][0] == Closing(Straight(single))[0];
    assert PairOf(Straight(single)) == ([text[j]], [text[j]]);
  }

  /** A straight quote right inside its own kind that can neither open nor close, or both, closes it. */
  lemma UnclearStraightCloses(lex: Lexicon, text: string, j: nat, single: bool, st: Scan)
    requires Reads(text, j, Closing(Straight(single))) && !Escaped(text, j) && !(single && InsideWord(lex, text, j))
    requires st.stack != [] && Top(st.stack).Pair() == PairOf(Straight(single))
    requires !OpeningContext(lex, text, j) && !ClosingContext(lex, text, j)
    ensures StepAt(lex, text, j, st) == Next(j + 1, Popped(st))
  {
    assert text[j] == text[j..j + 1][0] == Closing(Straight(single))[0];
  }

  /** A token that can only close, of which none is open, is passed. */
  lemma StrayIsPassed(lex: Lexicon, text: string, i: nat, st: Scan)
    requires i < |text| && OnlyCloses(lex, text, i) && !OpeningContext(lex, text, i)
    requires ClosingCount(st.stack, [text[i]]) == 0
    ensures StepAt(lex, text, i, st) == Next(i + 1, st)
  {
    if st.stack != [] { OpenIsCounted(st.stack, |st.stack| - 1); }
  }

  // ---------------------------------------------------------------- where straight quotes open and close

  /** After what a quote can open: the beginning, white space, or one of these characters. */
  lemma OpeningCharacters(c: char)
    ensures OpensAfter(c) <==> c in "([{<:;\U{2014}\U{2013}-"
  {
    var all := "([{<:;\U{2014}\U{2013}-";
    assert all[0] == '(' && all[1] == '[' && all[2] == '{' && all[3] == '<' && all[4] == ':' && all[5] == ';';
    assert all[6] == '\U{2014}' && all[7] == '\U{2013}' && all[8] == '-';
  }

  /** Before what it can close: the end, white space, or one of these characters. */
  lemma ClosingCharacters(c: char)
    ensures ClosesBefore(c) <==> c in ".,;:!?)]}>\U{2014}\U{2013}-"
  {
    var all := ".,;:!?)]}>\U{2014}\U{2013}-";
    assert all[0] == '.' && all[1] == ',' && all[2] == ';' && all[3] == ':' && all[4] == '!' && all[5] == '?';
    assert all[6] == ')' && all[7] == ']' && all[8] == '}' && all[9] == '>';
    assert all[10] == '\U{2014}' && all[11] == '\U{2013}' && all[12] == '-';
  }
}
