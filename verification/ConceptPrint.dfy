/**
 Formulas written out from their pieces: text without quotes, and texts in double or single quotes.  What
 the segmentation finds in such a formula is exactly its pieces, and every formula is written in this way.
 */
module ConceptPrint {
  import opened Common
  import opened ConceptFormula
  import opened ConceptRenaming

  /** What stands between two quotes: a character, one after a backslash, or the doubled quote. */
  datatype Bit = Letter(c: char) | Escaped(c: char) | Doubled

  /** A quoted text ends with its quote; the last of a formula may lack it, after a lone backslash or not. */
  datatype End = Closed | Unclosed | Dangling

  datatype Piece = Text(text: string) | Quote(single: bool, bits: seq<Bit>, end: End)

  function QuoteSign(single: bool): char { if single then '\'' else '\"' }

  // ---------------------------------------------------------------- printing

  function PrintBit(b: Bit, sign: char): string {
    match b
    case Letter(c) => [c]
    case Escaped(c) => ['\\', c]
    case Doubled => [sign, sign]
  }

  function PrintBits(bits: seq<Bit>, sign: char, post: string): string {
    if bits == [] then post else PrintBit(bits[0], sign) + PrintBits(bits[1..], sign, post)
  }

  function PrintEnd(end: End, sign: char): string {
    match end
    case Closed => [sign]
    case Unclosed => []
    case Dangling => ['\\']
  }

  function PrintPiece(p: Piece): string {
    match p
    case Text(text) => text
    case Quote(single, bits, end) =>
      [QuoteSign(single)] + PrintBits(bits, QuoteSign(single), PrintEnd(end, QuoteSign(single)))
  }

  function Print(ps: seq<Piece>): string { if ps == [] then [] else PrintPiece(ps[0]) + Print(ps[1..]) }

  // ---------------------------------------------------------------- which pieces may stand together

  predicate BitOk(b: Bit, sign: char) { b.Letter? ==> b.c != sign && b.c != '\\' }

  predicate PieceOk(p: Piece) {
    match p
    case Text(text) => text != [] && forall i :: 0 <= i < |text| ==> text[i] != '\'' && text[i] != '\"'
    case Quote(single, bits, _) => forall i :: 0 <= i < |bits| ==> BitOk(bits[i], QuoteSign(single))
  }

  /** Two texts are one text, a quoted text that is closed is not followed by the same quote, which would
      double it, and one that is not closed is the last. */
  predicate MayPrecede(p: Piece, ps: seq<Piece>) {
    ps == [] || (if p.Text? then ps[0].Quote? else p.end.Closed? && !(ps[0].Quote? && ps[0].single == p.single))
  }

  predicate WellFormed(ps: seq<Piece>) {
    ps == [] || (PieceOk(ps[0]) && MayPrecede(ps[0], ps[1..]) && WellFormed(ps[1..]))
  }

  // ---------------------------------------------------------------- reading what was printed

  lemma SignIsQuote(single: bool)
    ensures IsQuote(QuoteSign(single)) && QuoteSign(single) != '\\'
  {
  }

  predicate EndOk(end: End, sign: char, rest: string) {
    if end.Closed? then rest == [] || rest[0] != sign else rest == []
  }

  lemma {:induction false} BitsAreRead(bits: seq<Bit>, sign: char, end: End, rest: string)
    requires (forall i :: 0 <= i < |bits| ==> BitOk(bits[i], sign)) && sign != '\\' && EndOk(end, sign, rest)
    ensures QuotedLength(PrintBits(bits, sign, PrintEnd(end, sign)) + rest, sign) ==
            |PrintBits(bits, sign, PrintEnd(end, sign))|
  {
    var s := PrintBits(bits, sign, PrintEnd(end, sign)) + rest;
    if bits == [] {
      if end.Closed? { assert s[1..] == rest; }
    } else {
      BitsAreRead(bits[1..], sign, end, rest);
      var k := |PrintBit(bits[0], sign)|;
      var more := PrintBits(bits[1..], sign, PrintEnd(end, sign));
      assert s == PrintBit(bits[0], sign) + (more + rest);
      assert s[k..] == more + rest;
      if !bits[0].Letter? { assert s[0] == PrintBit(bits[0], sign)[0] && s[1] == PrintBit(bits[0], sign)[1]; }
    }
  }

  lemma PieceIsRead(p: Piece, rest: string)
    requires PieceOk(p) && (p.Text? ==> AtBoundary(rest)) && (p.Quote? ==> EndOk(p.end, QuoteSign(p.single), rest))
    ensures Segments(PrintPiece(p) + rest) == [Segment(p.Text?, PrintPiece(p))] + Segments(rest)
  {
    if p.Text? {
      PlainThen(p.text, rest);
    } else {
      var sign := QuoteSign(p.single);
      SignIsQuote(p.single);
      BitsAreRead(p.bits, sign, p.end, rest);
      var inner, s := PrintBits(p.bits, sign, PrintEnd(p.end, sign)), PrintPiece(p) + rest;
      assert s[0] == sign && s[1..] == inner + rest;
      assert SegmentLength(s) == |PrintPiece(p)|;
      assert s[..|PrintPiece(p)|] == PrintPiece(p) && s[|PrintPiece(p)|..] == rest;
    }
  }

  /** How a printed formula starts. */
  lemma PrintStarts(ps: seq<Piece>)
    requires WellFormed(ps) && ps != []
    ensures Print(ps) != []
    ensures if ps[0].Quote? then Print(ps)[0] == QuoteSign(ps[0].single) else !IsQuote(Print(ps)[0])
  {
    if ps[0].Text? { assert Print(ps)[0] == ps[0].text[0]; }
  }

  function PiecesAsSegments(ps: seq<Piece>): seq<Segment> {
    if ps == [] then [] else [Segment(ps[0].Text?, PrintPiece(ps[0]))] + PiecesAsSegments(ps[1..])
  }

  /** The segments of a printed formula are its pieces, the last one included when it is not closed. */
  lemma {:induction false} PrintedSegments(ps: seq<Piece>)
    requires WellFormed(ps)
    ensures Segments(Print(ps)) == PiecesAsSegments(ps)
  {
    if ps != [] {
      PrintedSegments(ps[1..]);
      if ps[1..] != [] {
        PrintStarts(ps[1..]);
        if ps[1].Quote? { SignIsQuote(ps[1].single); }
        if ps[0].Quote? { SignIsQuote(ps[0].single); }
      }
      PieceIsRead(ps[0], Print(ps[1..]));
    }
  }

  function RenamePiece(p: Piece, was: string, now: string): Piece
    requires was != []
  {
    if p.Text? then Text(Substitute(p.text, false, was, now)) else p
  }

  function RenamePieces(ps: seq<Piece>, was: string, now: string): seq<Piece>
    requires was != []
  {
    if ps == [] then [] else [RenamePiece(ps[0], was, now)] + RenamePieces(ps[1..], was, now)
  }

  lemma {:induction false} RenamedPieces(ps: seq<Piece>, was: string, now: string)
    requires was != []
    ensures Joined(RenameSegments(PiecesAsSegments(ps), was, now)) == Print(RenamePieces(ps, was, now))
  {
    if ps != [] {
      RenamedPieces(ps[1..], was, now);
      var gs := PiecesAsSegments(ps);
      assert gs[1..] == PiecesAsSegments(ps[1..]);
      assert RenameSegments(gs, was, now)[1..] == RenameSegments(gs[1..], was, now);
      assert RenamePieces(ps, was, now)[1..] == RenamePieces(ps[1..], was, now);
    }
  }

  /** Renaming in a printed formula renames in its texts, and prints every quoted piece as it was. */
  lemma PrintedRenaming(ps: seq<Piece>, was: string, now: string)
    requires WellFormed(ps) && IsName(was)
    ensures ReplaceIdentifier(Print(ps), was, now) == Print(RenamePieces(ps, was, now))
  {
    PrintedSegments(ps);
    RenamedPieces(ps, was, now);
  }

  lemma {:induction false} PiecesAsSegmentsAt(ps: seq<Piece>)
    ensures |PiecesAsSegments(ps)| == |ps|
    ensures forall k :: 0 <= k < |ps| ==> PiecesAsSegments(ps)[k] == Segment(ps[k].Text?, PrintPiece(ps[k]))
  {
    if ps != [] { PiecesAsSegmentsAt(ps[1..]); }
  }

  /** A printed formula mentions a name exactly when one of its texts does. */
  lemma PrintedMention(ps: seq<Piece>, concept: string)
    requires WellFormed(ps)
    ensures FormulaMentions(Print(ps), concept) <==>
            exists k :: 0 <= k < |ps| && ps[k].Text? && Occurs(ps[k].text, false, concept)
  {
    PrintedSegments(ps);
    PiecesAsSegmentsAt(ps);
    var gs := Segments(Print(ps));
    if k :| 0 <= k < |gs| && gs[k].unquoted && Occurs(gs[k].text, false, concept) { assert ps[k].Text?; }
    if k :| 0 <= k < |ps| && ps[k].Text? && Occurs(ps[k].text, false, concept) { assert gs[k].unquoted; }
  }

  // ---------------------------------------------------------------- every formula is printed

  /** What is read at once of a quoted text is one bit. */
  lemma StrideIsBit(s: string, sign: char) returns (b: Bit)
    requires sign != '\\' && Stride(s, sign) > 0
    ensures BitOk(b, sign) && Stride(s, sign) <= |s| && s[..Stride(s, sign)] == PrintBit(b, sign)
  {
    b := if s[0] == '\\' then Escaped(s[1]) else if s[0] == sign then Doubled else Letter(s[0]);
  }

  lemma StopIsEnd(s: string, sign: char) returns (end: End)
    requires sign != '\\' && Stride(s, sign) == 0
    ensures s[..QuotedLength(s, sign)] == PrintEnd(end, sign) && EndOk(end, sign, s[QuotedLength(s, sign)..])
  {
    end := if s == [] then Unclosed else if s[0] == '\\' then Dangling else Closed;
  }

  lemma SplitAt(s: string, k: nat, n: nat)
    requires k <= n <= |s|
    ensures s[..n] == s[..k] + s[k..][..n - k] && s[k..][n - k..] == s[n..]
  {
  }

  lemma {:induction false} QuotedIsPrinted(s: string, sign: char) returns (bits: seq<Bit>, end: End)
    requires sign != '\\'
    ensures forall i :: 0 <= i < |bits| ==> BitOk(bits[i], sign)
    ensures s[..QuotedLength(s, sign)] == PrintBits(bits, sign, PrintEnd(end, sign))
    ensures EndOk(end, sign, s[QuotedLength(s, sign)..])
    decreases |s|
  {
    var k := Stride(s, sign);
    if k == 0 {
      bits := [];
      end := StopIsEnd(s, sign);
    } else {
      var b := StrideIsBit(s, sign);
      var more;
      more, end := QuotedIsPrinted(s[k..], sign);
      bits := [b] + more;
      assert bits[1..] == more;
      StrideReads(s, sign);
      SplitAt(s, k, QuotedLength(s, sign));
    }
  }

  lemma FirstIsPrinted(s: string) returns (p: Piece)
    requires s != []
    ensures PieceOk(p) && PrintPiece(p) == s[..SegmentLength(s)]
    ensures p.Text? ==> AtBoundary(s[SegmentLength(s)..])
    ensures p.Quote? ==> EndOk(p.end, QuoteSign(p.single), s[SegmentLength(s)..])
  {
    if IsQuote(s[0]) {
      var bits, end := QuotedIsPrinted(s[1..], s[0]);
      p := Quote(s[0] == '\'', bits, end);
      var n := SegmentLength(s);
      assert s[..n] == [s[0]] + s[1..][..n - 1];
      assert s[1..][n - 1..] == s[n..];
    } else {
      PlainIsPlain(s);
      p := Text(s[..SegmentLength(s)]);
    }
  }

  /** Every text is the print of well-formed pieces, so the theorems above speak of every formula. */
  lemma {:induction false} EveryFormulaIsPrinted(f: string) returns (ps: seq<Piece>)
    ensures WellFormed(ps) && Print(ps) == f
    decreases |f|
  {
    ps := [];
    if f != [] {
      var p := FirstIsPrinted(f);
      var rest := f[SegmentLength(f)..];
      var more := EveryFormulaIsPrinted(rest);
      ps := [p] + more;
      assert ps[1..] == more;
      if more != [] { PrintStarts(more); }
    }
  }

  /** The characters of identifiers by code point: digits, capital letters, the underscore, small letters. */
  lemma IdentifierCharacters(c: char)
    ensures IsId(c) <==>
            (var n := c as int; 48 <= n <= 57 || 65 <= n <= 90 || n == 95 || 97 <= n <= 122)
  {
  }
}
