/** The order of sibling provisions: legal ordinal, then natural order of the last segment, then path. */
module SiblingOrder {
  import opened Common
  import opened Collections
  import opened PathText
  import opened LegalMarkers
  import opened Composition
  import opened Composer

  // ---------------------------------------------------------------- natural parts

  /** A run of digits by its value, or other text by its case-folded form and then as it is. */
  datatype Part = Number(value: int) | Text(folded: string, raw: string)

  function RunOf(s: string, digits: bool): (n: nat)
    ensures n <= |s|
  {
    if s == [] || IsDigit(s[0]) != digits then 0 else 1 + RunOf(s[1..], digits)
  }

  lemma {:induction false} RunIsUniform(s: string, digits: bool)
    ensures forall i :: 0 <= i < RunOf(s, digits) ==> IsDigit(s[i]) == digits
  {
    if s != [] && IsDigit(s[0]) == digits { RunIsUniform(s[1..], digits); }
  }

  /** The maximal runs of digits and of other characters, in order. */
  function NaturalParts(s: string, fold: string -> string): seq<Part> {
    if s == [] then []
    else
      var digits := IsDigit(s[0]);
      var n := RunOf(s, digits);
      RunIsUniform(s, digits);
      [if digits then Number(Decimal(s[..n])) else Text(fold(s[..n]), s[..n])] + NaturalParts(s[n..], fold)
  }

  predicate PartLess(a: Part, b: Part) {
    match (a, b)
    case (Number(x), Number(y)) => x < y
    case (Number(_), Text(_, _)) => true
    case (Text(_, _), Number(_)) => false
    case (Text(f, r), Text(g, s)) => TextOrder()(f, g) || (f == g && TextOrder()(r, s))
  }

  function PartOrder(): (Part, Part) -> bool { (a: Part, b: Part) => PartLess(a, b) }

  lemma PartIsStrict()
    ensures Strict(PartOrder())
  {
    TextIsStrict();
    forall a, b, c | PartLess(a, b) && PartLess(b, c) ensures PartLess(a, c) { PartTransitive(a, b, c); }
    forall a, b | a != b ensures PartLess(a, b) || PartLess(b, a) { }
  }

  lemma PartTransitive(a: Part, b: Part, c: Part)
    requires Strict(TextOrder()) && PartLess(a, b) && PartLess(b, c)
    ensures PartLess(a, c)
  {
  }

  // ---------------------------------------------------------------- the key

  /** The text names of a path; components decide only where two paths have the same text, which needs a
      slash inside a component. */
  datatype SiblingKey = SiblingKey(legal: Option<int>, natural: seq<Part>, text: string, components: Path)

  predicate LegalLess(a: Option<int>, b: Option<int>) { a.Some? && (b.None? || a.value < b.value) }

  function NaturalOrder(): (seq<Part>, seq<Part>) -> bool { Lexicographic(PartOrder()) }

  function ComponentOrder(): (Path, Path) -> bool { Lexicographic(TextOrder()) }

  predicate TailLess(a: SiblingKey, b: SiblingKey) {
    TextOrder()(a.text, b.text) || (a.text == b.text && ComponentOrder()(a.components, b.components))
  }

  predicate KeyLess(a: SiblingKey, b: SiblingKey) {
    || LegalLess(a.legal, b.legal)
    || (a.legal == b.legal && NaturalOrder()(a.natural, b.natural))
    || (a.legal == b.legal && a.natural == b.natural && TailLess(a, b))
  }

  lemma TailIsOrdered(a: SiblingKey, b: SiblingKey, c: SiblingKey)
    requires Strict(TextOrder()) && Strict(ComponentOrder())
    ensures !TailLess(a, a)
    ensures TailLess(a, b) && TailLess(b, c) ==> TailLess(a, c)
    ensures (a.text, a.components) != (b.text, b.components) ==> TailLess(a, b) || TailLess(b, a)
  {
  }

  lemma KeyIsOrdered(a: SiblingKey, b: SiblingKey, c: SiblingKey)
    requires Strict(TextOrder()) && Strict(ComponentOrder()) && Strict(NaturalOrder())
    ensures !KeyLess(a, a)
    ensures KeyLess(a, b) && KeyLess(b, c) ==> KeyLess(a, c)
    ensures a != b ==> KeyLess(a, b) || KeyLess(b, a)
  {
    TailIsOrdered(a, b, c);
  }

  /** What is left to the reader of a path: the legal fragments it ends in, whether it is a regulation, and
      case folding. */
  datatype Reader = Reader(fragments: Path -> seq<string>, regulation: Path -> bool, fold: string -> string)

  function LegalOrdinal(names: Reader, p: Path): Option<int> {
    var fragments := names.fragments(p);
    if fragments == [] then None
    else OrdinalOf(fragments[|fragments| - 1], KindForLevel(|fragments| - 1, names.regulation(p)))
  }

  function KeyOf(names: Reader, p: Path): SiblingKey {
    var segment := if p == [] then [] else p[|p| - 1];
    SiblingKey(LegalOrdinal(names, p), NaturalParts(segment, names.fold), PathText.Joined(p), p)
  }

  function SiblingLess(names: Reader): PathOrder { (a: Path, b: Path) => KeyLess(KeyOf(names, a), KeyOf(names, b)) }

  /** The sibling key orders paths strictly and totally, whatever its reader. */
  lemma SiblingLessIsStrict(names: Reader)
    ensures StrictOrder(SiblingLess(names))
  {
    TextIsStrict();
    PartIsStrict();
    LexicographicIsStrict(PartOrder());
    LexicographicIsStrict(TextOrder());
    forall a: Path, b: Path, c: Path
      ensures !SiblingLess(names)(a, a)
      ensures SiblingLess(names)(a, b) && SiblingLess(names)(b, c) ==> SiblingLess(names)(a, c)
      ensures a != b ==> SiblingLess(names)(a, b) || SiblingLess(names)(b, a)
    {
      KeyIsOrdered(KeyOf(names, a), KeyOf(names, b), KeyOf(names, c));
    }
  }

  /** Paths without a slash in a component are told apart by their text alone. */
  lemma TextTellsPaths(a: Path, b: Path)
    requires Componentwise(a) && Componentwise(b) && PathText.Joined(a) == PathText.Joined(b)
    ensures a == b
  {
    SplitJoined(a);
    SplitJoined(b);
  }

  // ---------------------------------------------------------------- composing in this order

  /** Composition in the order of the sibling key. */
  method ComposeInSiblingOrder(root: Path, records: seq<Record>, scope: ReleaseScope, names: Reader, sizes: Sizes)
    returns (r: Result)
    ensures StrictOrder(SiblingLess(names)) && r == Compose(root, records, scope, SiblingLess(names), sizes)
  {
    SiblingLessIsStrict(names);
    r := ComposeDescendantText(root, records, scope, SiblingLess(names), sizes);
  }
}
