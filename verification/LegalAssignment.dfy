/** Which of the levels open to a marker it takes, and the kinds of the levels. */
module LegalAssignment {
  import opened Common
  import opened LegalMarkers

  /** The kinds of the levels of a regulation: the first is `(a)`, and then three kinds repeat. */
  lemma RegulationKinds(k: nat)
    ensures KindForLevel(0, true) == LowerAlpha
    ensures KindForLevel(3 * k + 1, true) == Numeric
    ensures KindForLevel(3 * k + 2, true) == LowerRoman
    ensures KindForLevel(3 * k + 3, true) == UpperAlpha
  {
  }

  /** Those of a statute: the first is `(a)`, and then four kinds repeat. */
  lemma StatuteKinds(k: nat)
    ensures KindForLevel(0, false) == LowerAlpha
    ensures KindForLevel(4 * k + 1, false) == Numeric
    ensures KindForLevel(4 * k + 2, false) == UpperAlpha
    ensures KindForLevel(4 * k + 3, false) == LowerRoman
    ensures KindForLevel(4 * k + 4, false) == UpperRoman
  {
  }

  /** At level `l` the token is the letter next after the open one. */
  predicate LetterAt(stack: seq<Entry>, read: Reading, regulation: bool, alpha: Kind, l: nat) {
    l < |stack| && KindForLevel(l, regulation) == alpha && read(alpha) == Some(stack[l].ordinal + 1)
  }

  /** At level `l` the token goes beyond the open ordinal. */
  predicate SiblingAt(stack: seq<Entry>, read: Reading, regulation: bool, l: nat) {
    && l < |stack| && read(KindForLevel(l, regulation)).Some?
    && read(KindForLevel(l, regulation)).value > stack[l].ordinal
  }

  /** The token can be read one level further down. */
  predicate ChildReads(stack: seq<Entry>, read: Reading, regulation: bool) {
    read(KindForLevel(|stack|, regulation)).Some?
  }

  predicate DeepestLetter(stack: seq<Entry>, read: Reading, regulation: bool, alpha: Kind, l: nat) {
    LetterAt(stack, read, regulation, alpha, l) &&
    forall k: nat :: l < k < |stack| ==> !LetterAt(stack, read, regulation, alpha, k)
  }

  predicate DeepestSibling(stack: seq<Entry>, read: Reading, regulation: bool, l: nat) {
    SiblingAt(stack, read, regulation, l) &&
    forall k: nat :: l < k < |stack| ==> !SiblingAt(stack, read, regulation, k)
  }

  predicate SomeLetter(stack: seq<Entry>, read: Reading, regulation: bool, alpha: Kind) {
    exists l: nat :: l < |stack| && LetterAt(stack, read, regulation, alpha, l)
  }

  predicate SomeSibling(stack: seq<Entry>, read: Reading, regulation: bool) {
    exists l: nat :: l < |stack| && SiblingAt(stack, read, regulation, l)
  }

  /** The level chosen.  A child is opened at once if that is preferred.  Where the next level down is
      Roman, the next letter of an open level comes first, then the child, then a sibling; elsewhere a
      sibling comes first and the child last.  Of several levels it is always the deepest. */
  predicate Chosen(stack: seq<Entry>, read: Reading, regulation: bool, preferChild: bool, l: nat) {
    var kind, child := KindForLevel(|stack|, regulation), ChildReads(stack, read, regulation);
    if preferChild && child then l == |stack|
    else if kind.LowerRoman? && SomeLetter(stack, read, regulation, LowerAlpha) then
      DeepestLetter(stack, read, regulation, LowerAlpha, l)
    else if kind.UpperRoman? && SomeLetter(stack, read, regulation, UpperAlpha) then
      DeepestLetter(stack, read, regulation, UpperAlpha, l)
    else if (kind.LowerRoman? || kind.UpperRoman?) && child then l == |stack|
    else if SomeSibling(stack, read, regulation) then DeepestSibling(stack, read, regulation, l)
    else child && l == |stack|
  }

  lemma {:induction false} LetterIsDeepest(stack: seq<Entry>, n: nat, read: Reading, alpha: Kind, regulation: bool)
    requires n <= |stack| && forall k: nat :: n <= k < |stack| ==> !LetterAt(stack, read, regulation, alpha, k)
    ensures match AsNextLetter(stack, n, read, alpha, regulation)
            case None => !SomeLetter(stack, read, regulation, alpha)
            case Some(a) => DeepestLetter(stack, read, regulation, alpha, a.level) && a.kind == alpha &&
                            read(alpha) == Some(a.ordinal)
  {
    if n > 0 && !LetterAt(stack, read, regulation, alpha, n - 1) {
      LetterIsDeepest(stack, n - 1, read, alpha, regulation);
    }
  }

  lemma {:induction false} SiblingIsDeepest(stack: seq<Entry>, n: nat, read: Reading, regulation: bool)
    requires n <= |stack| && forall k: nat :: n <= k < |stack| ==> !SiblingAt(stack, read, regulation, k)
    ensures match AsSibling(stack, n, read, regulation)
            case None => !SomeSibling(stack, read, regulation)
            case Some(a) => DeepestSibling(stack, read, regulation, a.level) &&
                            a.kind == KindForLevel(a.level, regulation) && read(a.kind) == Some(a.ordinal)
  {
    if n > 0 && !SiblingAt(stack, read, regulation, n - 1) { SiblingIsDeepest(stack, n - 1, read, regulation); }
  }

  lemma OneDeepest(stack: seq<Entry>, read: Reading, regulation: bool, alpha: Kind, l: nat, k: nat)
    ensures DeepestLetter(stack, read, regulation, alpha, l) && DeepestLetter(stack, read, regulation, alpha, k) ==>
              l == k
    ensures DeepestSibling(stack, read, regulation, l) && DeepestSibling(stack, read, regulation, k) ==> l == k
  {
  }

  /** The assignment is the chosen level with the prescribed kind and the ordinal in that kind. */
  lemma ReadingIsChosen(stack: seq<Entry>, read: Reading, regulation: bool, preferChild: bool)
    ensures match AssignReading(stack, read, regulation, preferChild)
            case None => forall l :: !Chosen(stack, read, regulation, preferChild, l)
            case Some(a) => Chosen(stack, read, regulation, preferChild, a.level) &&
                            a.kind == KindForLevel(a.level, regulation) && read(a.kind) == Some(a.ordinal)
  {
    LetterIsDeepest(stack, |stack|, read, LowerAlpha, regulation);
    LetterIsDeepest(stack, |stack|, read, UpperAlpha, regulation);
    SiblingIsDeepest(stack, |stack|, read, regulation);
  }

  lemma ChosenOnce(stack: seq<Entry>, read: Reading, regulation: bool, preferChild: bool, l: nat, k: nat)
    requires Chosen(stack, read, regulation, preferChild, l) && Chosen(stack, read, regulation, preferChild, k)
    ensures l == k
  {
    OneDeepest(stack, read, regulation, LowerAlpha, l, k);
    OneDeepest(stack, read, regulation, UpperAlpha, l, k);
  }

  /** A marker is assigned to a level exactly when that level is the one chosen. */
  lemma AssignIsChosen(stack: seq<Entry>, token: string, regulation: bool, target: seq<string>, preferTarget: bool,
                       preferRoman: bool, a: Assignment)
    ensures Assign(stack, token, regulation, target, preferTarget, preferRoman) == Some(a) <==>
            var preferChild := preferRoman ||
              (preferTarget && |stack| < |target| && token == target[|stack|] &&
               forall i :: 0 <= i < |stack| ==> stack[i].token == target[i]);
            && Chosen(stack, Read(token), regulation, preferChild, a.level)
            && a.kind == KindForLevel(a.level, regulation) && OrdinalOf(token, a.kind) == Some(a.ordinal)
  {
    var preferChild := preferRoman || (preferTarget && ContinuesTarget(stack, token, target));
    if |stack| < |target| {
      assert Tokens(stack) == target[..|stack|] <==> forall i :: 0 <= i < |stack| ==> stack[i].token == target[i] by {
        if Tokens(stack) == target[..|stack|] {
          forall i | 0 <= i < |stack| ensures stack[i].token == target[i] {
            assert Tokens(stack)[i] == target[..|stack|][i];
          }
        }
      }
    }
    ReadingIsChosen(stack, Read(token), regulation, preferChild);
    var r := AssignReading(stack, Read(token), regulation, preferChild);
    if r.Some? && Chosen(stack, Read(token), regulation, preferChild, a.level) {
      ChosenOnce(stack, Read(token), regulation, preferChild, a.level, r.value.level);
    }
  }
}
