/**
 The evidence search of the hierarchy slicer: whether a marker is structural may depend on a later
 sibling, whose own standing may depend on still later markers.  `IsStructural` and `SiblingScan` are
 the two mutually recursive parts; one work budget is shared by all nested scans of a slice.
 */
module LegalEvidence {
  import opened Common
  import opened LegalMarkers

  const MAX_EVIDENCE_DEPTH: nat := 32
  const MAX_EVIDENCE_WORK: nat := 10_000

  datatype Marker = Marker(start: nat, end: nat, token: string)

  /** Text tests of a marker, by its index; context offsets are the ends of earlier structural markers.
      They are left uninterpreted. */
  datatype Signs = Signs(
    structural: nat -> bool,
    strong: nat -> bool,
    paragraph: nat -> bool,
    terminalHeading: nat -> bool,
    referenceCue: (nat, Option<nat>) -> bool,
    followingHeading: (nat, bool, Option<nat>) -> bool,
    headingSince: (nat, nat) -> bool,
    referenceSince: (nat, nat, Kind) -> bool)

  datatype Scope = Scope(text: string, markers: seq<Marker>, fragments: seq<string>, regulation: bool, signs: Signs) {
    function KindAt(level: nat): Kind { KindForLevel(level, regulation) }

    predicate PrecedingHeading(i: nat, last: Option<nat>) { last.Some? && signs.headingSince(i, last.value) }

    predicate PrecedingReference(i: nat, last: Option<nat>, kind: Kind) {
      last.Some? && signs.referenceSince(i, last.value, kind)
    }

    predicate FollowsCue(i: nat, last: Option<nat>) { !signs.paragraph(i) && signs.referenceCue(i, last) }

    /** A Roman marker whose successor in the same kind is the next structural marker. */
    predicate BeginsRoman(i: nat, stack: seq<Entry>)
      requires i < |markers|
    {
      var kind := KindAt(|stack|);
      && i + 1 < |markers| && (kind == LowerRoman || kind == UpperRoman)
      && var here := OrdinalOf(markers[i].token, kind);
         var next := OrdinalOf(markers[i + 1].token, kind);
         here.Some? && next == Some(here.value + 1) && signs.structural(i + 1)
    }

    function EntryFor(i: nat, a: Assignment): Entry
      requires i < |markers|
    {
      Entry(a.kind, markers[i].token, a.ordinal)
    }

    /** Some open level up to `highest` has a kind in which the token can be read. */
    predicate BlocksHierarchy(token: string, stack: seq<Entry>, highest: nat) {
      (token != [] && forall k :: 0 <= k < |token| ==> token[k] == '0') ||
      exists level: nat :: level <= highest && level < |stack| && OrdinalOf(token, KindAt(level)).Some?
    }

    predicate KindRepeats(level: nat, kind: Kind) { exists l: nat :: l < level && KindAt(l) == kind }

    /** A later marker that can only be a sibling of `a` below the scanned stack. */
    predicate PlainSibling(token: string, a: Assignment, scan: seq<Entry>) {
      && (var raw := OrdinalOf(token, a.kind); raw.Some? && raw.value > a.ordinal)
      && (forall l: nat :: l <= |scan| && l != a.level ==> OrdinalOf(token, KindAt(l)).None?)
      && (forall k :: a.level < k < |scan| ==> scan[k].kind != a.kind)
    }

    predicate ProvisionalEvidence(j: nat, last: Option<nat>) {
      && !FollowsCue(j, last)
      && ((signs.structural(j) &&
           (signs.strong(j) || signs.followingHeading(j, true, last) || signs.terminalHeading(j)))
          || PrecedingHeading(j, last))
    }
  }

  /** `scans` counts sibling-scan iterations, nested ones included. */
  datatype Evidence = Found(answer: bool, remaining: nat, scans: nat) | Exhausted(scans: nat)

  function Settled(answer: bool, remaining: nat): Evidence { Found(answer, remaining, 0) }

  function Later(e: Evidence, scans: nat): Evidence {
    match e
    case Found(answer, remaining, more) => Found(answer, remaining, scans + more)
    case Exhausted(more) => Exhausted(scans + more)
  }

  predicate Accounted(e: Evidence, budget: nat) {
    match e
    case Found(_, remaining, scans) => scans + remaining == budget
    case Exhausted(scans) => scans == budget
  }

  function IsStructural(s: Scope, i: nat, stack: seq<Entry>, a: Assignment, last: Option<nat>, depth: nat,
                        remaining: nat): (e: Evidence)
    requires i < |s.markers| && a.level <= |stack| && depth <= MAX_EVIDENCE_DEPTH
    ensures Accounted(e, remaining)
    decreases |s.markers| - i, 1
  {
    if s.FollowsCue(i, last) then Settled(false, remaining)
    else if s.signs.structural(i) && s.signs.strong(i) then Settled(true, remaining)
    else if depth >= MAX_EVIDENCE_DEPTH || s.KindRepeats(a.level, a.kind) then Settled(false, remaining)
    else if s.signs.structural(i) then
      if s.signs.followingHeading(i, false, last) then Settled(true, remaining)
      else if !s.signs.followingHeading(i, true, last) then Settled(false, remaining)
      else if s.PrecedingReference(i, last, a.kind) then Settled(true, remaining)
      else HasFollowingSibling(s, i, stack, a, depth, remaining)
    else if a.level != |stack| || !s.PrecedingHeading(i, last) then Settled(false, remaining)
    else HasFollowingSibling(s, i, stack, a, depth, remaining)
  }

  function HasFollowingSibling(s: Scope, i: nat, stack: seq<Entry>, a: Assignment, depth: nat, remaining: nat):
    (e: Evidence)
    requires i < |s.markers| && a.level <= |stack| && depth < MAX_EVIDENCE_DEPTH
    ensures Accounted(e, remaining)
    decreases |s.markers| - i, 0
  {
    SiblingScan(s, i + 1, stack[..a.level] + [s.EntryFor(i, a)], Some(s.markers[i].end), a, depth, remaining)
  }

  /** What one later marker settles: an answer, or the scope and the work with which the scan goes on. */
  datatype Look = Answer(evidence: Evidence) | GoOn(scan: seq<Entry>, last: Option<nat>, remaining: nat, scans: nat)

  function SiblingScan(s: Scope, j: nat, scan: seq<Entry>, last: Option<nat>, a: Assignment, depth: nat,
                       remaining: nat): (e: Evidence)
    requires j <= |s.markers| && a.level < |scan| && depth < MAX_EVIDENCE_DEPTH
    ensures Accounted(e, remaining)
    decreases |s.markers| - j, 4
  {
    if j == |s.markers| then Settled(false, remaining)
    else if remaining == 0 then Exhausted(0)
    else
      match LookAt(s, j, scan, last, a, depth, remaining - 1)
      case Answer(e) => e
      case GoOn(scan', last', left, scans) => Later(SiblingScan(s, j + 1, scan', last', a, depth, left), scans)
  }

  function LookAt(s: Scope, j: nat, scan: seq<Entry>, last: Option<nat>, a: Assignment, depth: nat, left: nat):
    (l: Look)
    requires j < |s.markers| && a.level < |scan| && depth < MAX_EVIDENCE_DEPTH
    ensures match l
            case Answer(e) => Accounted(e, left + 1)
            case GoOn(scan', _, rest, scans) => a.level < |scan'| && scans + rest == left + 1
    decreases |s.markers| - j, 3
  {
    var token, direct := s.markers[j].token, s.signs.structural(j);
    if s.PlainSibling(token, a, scan) && s.ProvisionalEvidence(j, last) then Answer(Found(true, left, 1))
    else
      match Assign(scan, token, s.regulation, [], false, s.BeginsRoman(j, scan))
      case None =>
        if direct && s.BlocksHierarchy(token, scan, a.level) then Answer(Found(false, left, 1))
        else GoOn(scan, last, left, 1)
      case Some(b) =>
        AssignAdvances(scan, token, s.regulation, [], false, s.BeginsRoman(j, scan));
        if b.level > a.level then
          if s.ProvisionalEvidence(j, last)
          then GoOn(scan[..b.level] + [s.EntryFor(j, b)], Some(s.markers[j].end), left, 1)
          else GoOn(scan, last, left, 1)
        else
          Weigh(s, j, scan, last, a, b, depth, left)
  }

  /** A marker assigned at or above the scanned level: it answers when it is structural itself. */
  function Weigh(s: Scope, j: nat, scan: seq<Entry>, last: Option<nat>, a: Assignment, b: Assignment, depth: nat,
                 left: nat): (l: Look)
    requires j < |s.markers| && b.level <= a.level < |scan| && depth < MAX_EVIDENCE_DEPTH
    ensures match l
            case Answer(e) => Accounted(e, left + 1)
            case GoOn(scan', _, rest, scans) => a.level < |scan'| && scans + rest == left + 1
    decreases |s.markers| - j, 2
  {
    match IsStructural(s, j, scan, b, last, depth + 1, left)
    case Exhausted(scans) => Answer(Exhausted(scans + 1))
    case Found(structural, rest, scans) =>
      if structural then
        Answer(Found(b.level == a.level && b.kind == a.kind && b.ordinal > a.ordinal, rest, scans + 1))
      else if b.level < a.level &&
              (s.signs.structural(j) || s.signs.followingHeading(j, true, last) || s.PrecedingHeading(j, last))
      then Answer(Found(false, rest, scans + 1))
      else GoOn(scan, last, rest, scans + 1)
  }
}
