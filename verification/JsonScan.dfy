/**
 The JSON key scan that the broker and the signer run on every frame, on the unread suffix.  It indexes
 ahead without bounds checks because validity was established first; `Panic` records such an index
 going out of bounds.
 */
module JsonScan {
  import opened Common
  import opened JsonGrammar

  datatype Scan = Ok(rest: Bytes) | Refused | Panic

  // ---------------------------------------------------------------- the scanner on the unread suffix

  function Skip(s: Bytes): (r: Bytes)
    ensures |r| <= |s|
  {
    if s != [] && IsSpace(s[0]) then Skip(s[1..]) else s
  }

  /** The suffix after the closing quote, given the suffix after the opening one. */
  function SkipString(s: Bytes): (r: Option<Bytes>)
    ensures r.Some? ==> |r.value| < |s|
  {
    if s == [] then None
    else if s[0] == QUOTE then Some(s[1..])
    else if s[0] == BACKSLASH then (if |s| >= 2 then SkipString(s[2..]) else None)
    else SkipString(s[1..])
  }

  function SkipScalar(s: Bytes): (r: Bytes)
    ensures |r| <= |s|
    ensures s != [] && !IsTerminator(s[0]) ==> |r| < |s|
  {
    if s != [] && !IsTerminator(s[0]) then SkipScalar(s[1..]) else s
  }

  function ScanValue(s: Bytes, depth: nat, decode: Bytes -> Option<Key>): (r: Scan)
    ensures r.Ok? ==> |r.rest| < |s|
    decreases |s|, 2
  {
    if depth > MAX_DEPTH then Refused
    else
      var t := Skip(s);
      if t == [] then Refused
      else if t[0] == OPEN_OBJECT then ScanObject(t, depth, decode)
      else if t[0] == OPEN_ARRAY then ScanArray(t, depth, decode)
      else if t[0] == QUOTE then
        match SkipString(t[1..]) { case None => Refused case Some(rest) => Ok(rest) }
      else if IsTerminator(t[0]) then Refused
      else Ok(SkipScalar(t))
  }

  function ScanObject(t: Bytes, depth: nat, decode: Bytes -> Option<Key>): (r: Scan)
    requires t != []
    ensures r.Ok? ==> |r.rest| < |t|
    decreases |t|, 1
  {
    var u := Skip(t[1..]);
    if u == [] then Panic
    else if u[0] == CLOSE_OBJECT then Ok(u[1..])
    else ScanMembers(u, depth, {}, decode)
  }

  /** One object key: its encoded form and the suffix after it. */
  function ScanKey(s: Bytes): (r: Option<(Bytes, Bytes)>)
    ensures r.Some? ==> |r.value.1| < |s|
  {
    var t := Skip(s);
    if t == [] || t[0] != QUOTE then None
    else
      match SkipString(t[1..])
      case None => None
      case Some(rest) => Some((t[..|t| - |rest|], rest))
  }

  predicate KeyRefused(encoded: Bytes, seen: set<Key>, decode: Bytes -> Option<Key>) {
    |encoded| > MAX_KEY_BYTES || decode(encoded).None? || decode(encoded).value in seen
  }

  function ScanMembers(s: Bytes, depth: nat, seen: set<Key>, decode: Bytes -> Option<Key>): (r: Scan)
    ensures r.Ok? ==> |r.rest| < |s|
    decreases |s|, 0
  {
    var k := ScanKey(s);
    if k.None? || KeyRefused(k.value.0, seen, decode) then Refused
    else
      match ScanMemberValue(k.value.1, depth, decode)
      case Refused => Refused
      case Panic => Panic
      case Ok(v) =>
        var w := Skip(v);
        if w == [] then Panic
        else if w[0] == CLOSE_OBJECT then Ok(w[1..])
        else if w[0] == COMMA then ScanMembers(w[1..], depth, seen + {decode(k.value.0).value}, decode)
        else Refused
  }

  function ScanMemberValue(s: Bytes, depth: nat, decode: Bytes -> Option<Key>): (r: Scan)
    ensures r.Ok? ==> |r.rest| < |s|
    decreases |s|, 0
  {
    var u := Skip(s);
    if u == [] then Panic
    else if u[0] != COLON then Refused
    else ScanValue(u[1..], depth + 1, decode)
  }

  function ScanArray(t: Bytes, depth: nat, decode: Bytes -> Option<Key>): (r: Scan)
    requires t != []
    ensures r.Ok? ==> |r.rest| < |t|
    decreases |t|, 1
  {
    var u := Skip(t[1..]);
    if u == [] then Panic
    else if u[0] == CLOSE_ARRAY then Ok(u[1..])
    else ScanElements(u, depth, decode)
  }

  function ScanElements(s: Bytes, depth: nat, decode: Bytes -> Option<Key>): (r: Scan)
    ensures r.Ok? ==> |r.rest| < |s|
    decreases |s|, 3
  {
    match ScanValue(s, depth + 1, decode)
    case Refused => Refused
    case Panic => Panic
    case Ok(v) =>
      var w := Skip(v);
      if w == [] then Panic
      else if w[0] == CLOSE_ARRAY then Ok(w[1..])
      else if w[0] == COMMA then ScanElements(w[1..], depth, decode)
      else Refused
  }

  // ---------------------------------------------------------------- acceptance of a tree, in scan order

  predicate Accepts(v: Value, depth: nat, decode: Bytes -> Option<Key>) {
    depth <= MAX_DEPTH &&
    match v
    case Array(elements) => AcceptsElements(elements, depth, decode)
    case Object(members) => AcceptsMembers(members, depth, {}, decode)
    case _ => true
  }

  predicate AcceptsElements(e: Elements, depth: nat, decode: Bytes -> Option<Key>) {
    Accepts(e.value, depth + 1, decode) && (e.Element? ==> AcceptsElements(e.next, depth, decode))
  }

  predicate AcceptsMembers(m: Members, depth: nat, seen: set<Key>, decode: Bytes -> Option<Key>) {
    && !KeyRefused(Quoted(m.key), seen, decode)
    && Accepts(m.value, depth + 1, decode)
    && (m.Member? ==> AcceptsMembers(m.next, depth, seen + {decode(Quoted(m.key)).value}, decode))
  }

  // ---------------------------------------------------------------- scanning printed text

  lemma {:induction false} SkipsSpaces(w: Bytes, s: Bytes)
    requires Spaces(w) && (s == [] || !IsSpace(s[0]))
    ensures Skip(w + s) == s
  {
    if w == [] {
      assert w + s == s;
    } else {
      SkipsSpaces(w[1..], s);
      assert (w + s)[1..] == w[1..] + s;
    }
  }

  /** A string body never shows the scanner a closing quote. */
  predicate Closed(s: Bytes) {
    if s == [] then true
    else if s[0] == BACKSLASH then |s| >= 2 && Closed(s[2..])
    else s[0] != QUOTE && Closed(s[1..])
  }

  lemma {:induction false} BodyIsClosed(s: Bytes)
    requires StringBody(s)
    ensures Closed(s)
  {
    if s != [] {
      if s[0] != BACKSLASH {
        BodyIsClosed(s[1..]);
      } else if s[1] != 0x75 {
        BodyIsClosed(s[2..]);
      } else {
        BodyIsClosed(s[6..]);
        assert s[5..][1..] == s[6..] && s[4..][1..] == s[5..] && s[3..][1..] == s[4..] && s[2..][1..] == s[3..];
        assert Closed(s[5..]);
        assert Closed(s[4..]);
        assert Closed(s[3..]);
        assert Closed(s[2..]);
      }
    }
  }

  lemma {:induction false} SkipsBody(s: Bytes, post: Bytes)
    requires Closed(s)
    ensures SkipString(s + ([QUOTE] + post)) == Some(post)
  {
    var all := s + ([QUOTE] + post);
    if s == [] {
      assert all[1..] == post;
    } else if s[0] == BACKSLASH {
      SkipsBody(s[2..], post);
      assert all[2..] == s[2..] + ([QUOTE] + post);
    } else {
      SkipsBody(s[1..], post);
      assert all[1..] == s[1..] + ([QUOTE] + post);
    }
  }

  predicate IsNumberByte(b: byte) { IsDigit(b) || b == 0x2B || b == 0x2D || b == 0x2E || b == 0x65 || b == 0x45 }

  predicate NumberBytes(s: Bytes) { forall i :: 0 <= i < |s| ==> IsNumberByte(s[i]) }

  lemma FractionBytes(s: Bytes)
    requires IsFraction(s)
    ensures NumberBytes(s)
  {
    assert forall i :: 1 <= i < |s| ==> s[i] == s[1..][i - 1];
  }

  lemma ExponentBytes(s: Bytes)
    requires IsExponent(s)
    ensures NumberBytes(s)
  {
    assert forall i :: 1 <= i < |s| ==> s[i] == s[1..][i - 1];
    assert forall i :: 2 <= i < |s| ==> s[i] == s[2..][i - 2];
  }

  lemma NumberIsNumberBytes(s: Bytes)
    requires IsNumber(s)
    ensures s != [] && NumberBytes(s)
  {
    var sign: Bytes, whole: Bytes, fraction: Bytes, exponent: Bytes :|
      && s == sign + whole + fraction + exponent
      && IsSign(sign) && IsInteger(whole) && IsFraction(fraction) && IsExponent(exponent);
    FractionBytes(fraction);
    ExponentBytes(exponent);
    assert NumberBytes(sign) && NumberBytes(whole);
    assert NumberBytes(sign + whole);
    assert NumberBytes(sign + whole + fraction);
  }

  lemma ScalarBytes(s: Bytes)
    requires IsScalar(s)
    ensures s != [] && s[0] != QUOTE && s[0] != OPEN_ARRAY && s[0] != OPEN_OBJECT
    ensures forall i :: 0 <= i < |s| ==> !IsTerminator(s[i])
  {
    if IsNumber(s) { NumberIsNumberBytes(s); }
  }

  lemma {:induction false} SkipsScalar(s: Bytes, post: Bytes)
    requires forall i :: 0 <= i < |s| ==> !IsTerminator(s[i])
    requires post == [] || IsTerminator(post[0])
    ensures SkipScalar(s + post) == post
  {
    if s == [] {
      assert s + post == post;
    } else {
      SkipsScalar(s[1..], post);
      assert (s + post)[1..] == s[1..] + post;
    }
  }

  lemma Tail(b: byte, s: Bytes)
    ensures [b] + s != [] && ([b] + s)[0] == b && ([b] + s)[1..] == s
  {
  }

  lemma FirstByte(v: Value, post: Bytes)
    requires WellFormed(v)
    ensures Text(v, post) != [] && !IsTerminator(Text(v, post)[0])
  {
    if v.Scalar? { ScalarBytes(v.text); }
  }

  function Verdict(accepted: bool, post: Bytes): Scan { if accepted then Ok(post) else Refused }

  lemma ScansString(body: Bytes, post: Bytes)
    requires StringBody(body)
    ensures var t := StringText(body, post);
            t != [] && t[0] == QUOTE && SkipString(t[1..]) == Some(post)
  {
    BodyIsClosed(body);
    SkipsBody(body, post);
    Tail(QUOTE, body + ([QUOTE] + post));
  }

  lemma ScansLeaf(v: Value, depth: nat, post: Bytes, decode: Bytes -> Option<Key>)
    requires WellFormed(v) && !v.Array? && !v.Object? && depth <= MAX_DEPTH
    requires post == [] || IsTerminator(post[0])
    ensures ScanValue(Text(v, post), depth, decode) == Ok(post)
  {
    FirstByte(v, post);
    match v
    case Scalar(text) =>
      ScalarBytes(text);
      SkipsScalar(text, post);
    case Str(body) =>
      ScansString(body, post);
    case EmptyArray(pad) =>
      SkipsSpaces(pad, [CLOSE_ARRAY] + post);
      Tail(OPEN_ARRAY, pad + ([CLOSE_ARRAY] + post));
      Tail(CLOSE_ARRAY, post);
    case EmptyObject(pad) =>
      SkipsSpaces(pad, [CLOSE_OBJECT] + post);
      Tail(OPEN_OBJECT, pad + ([CLOSE_OBJECT] + post));
      Tail(CLOSE_OBJECT, post);
  }

  /** Leading spaces do not matter to the value scan. */
  lemma ScanAfterSpaces(w: Bytes, s: Bytes, depth: nat, decode: Bytes -> Option<Key>)
    requires Spaces(w) && s != [] && !IsSpace(s[0])
    ensures Skip(w + s) == s
    ensures ScanValue(w + s, depth, decode) == ScanValue(s, depth, decode)
  {
    SkipsSpaces(w, s);
    assert Skip(s) == s;
  }

  /** Scanning the text of a value consumes exactly that text, refuses it exactly when the tree is not
      accepted, and never indexes out of bounds. */
  lemma {:induction false} ScansValue(v: Value, post: Bytes, depth: nat, decode: Bytes -> Option<Key>)
    requires WellFormed(v) && DecodesStrings(decode)
    requires post == [] || IsTerminator(post[0])
    ensures ScanValue(Text(v, post), depth, decode) == Verdict(Accepts(v, depth, decode), post)
    decreases v
  {
    if depth <= MAX_DEPTH {
      match v
      case Array(elements) =>
        ScansElements(elements, post, depth, decode);
        ArrayOpens(elements, post, depth, decode);
      case Object(members) =>
        ScansMembers(members, post, depth, {}, decode);
        ObjectOpens(members, post, depth, decode);
      case _ =>
        ScansLeaf(v, depth, post, decode);
    }
  }

  lemma ArrayOpens(e: Elements, post: Bytes, depth: nat, decode: Bytes -> Option<Key>)
    requires WellFormedElements(e) && depth <= MAX_DEPTH
    ensures ScanValue(Text(Array(e), post), depth, decode) == ScanElements(ElementsText(e, post), depth, decode)
  {
    var u := ElementsText(e, post);
    var value := Text(e.value, e.after + ElementsTail(e, post));
    Tail(OPEN_ARRAY, u);
    assert Skip([OPEN_ARRAY] + u) == [OPEN_ARRAY] + u;
    assert ScanValue([OPEN_ARRAY] + u, depth, decode) == ScanArray([OPEN_ARRAY] + u, depth, decode);
    FirstByte(e.value, e.after + ElementsTail(e, post));
    ScanAfterSpaces(e.before, value, depth + 1, decode);
    assert ScanArray([OPEN_ARRAY] + u, depth, decode) == ScanElements(value, depth, decode);
    ElementsAgree(u, value, depth, decode);
  }

  lemma ElementsAgree(s: Bytes, t: Bytes, depth: nat, decode: Bytes -> Option<Key>)
    requires ScanValue(s, depth + 1, decode) == ScanValue(t, depth + 1, decode)
    ensures ScanElements(s, depth, decode) == ScanElements(t, depth, decode)
  {
  }

  lemma {:induction false} SkipTwice(u: Bytes)
    ensures Skip(Skip(u)) == Skip(u)
  {
    if u != [] && IsSpace(u[0]) { SkipTwice(u[1..]); }
  }

  lemma ObjectOpens(m: Members, post: Bytes, depth: nat, decode: Bytes -> Option<Key>)
    requires WellFormedMembers(m) && depth <= MAX_DEPTH
    ensures ScanValue(Text(Object(m), post), depth, decode) == ScanMembers(MembersText(m, post), depth, {}, decode)
  {
    var u := MembersText(m, post);
    Tail(OPEN_OBJECT, u);
    assert Skip([OPEN_OBJECT] + u) == [OPEN_OBJECT] + u;
    assert ScanValue([OPEN_OBJECT] + u, depth, decode) == ScanObject([OPEN_OBJECT] + u, depth, decode);
    SkipsSpaces(m.before, StringText(m.key, MemberValueText(m, post)));
    MembersAfterSpaces(u, depth, decode);
    assert ScanObject([OPEN_OBJECT] + u, depth, decode) == ScanMembers(Skip(u), depth, {}, decode);
  }

  lemma MembersAfterSpaces(u: Bytes, depth: nat, decode: Bytes -> Option<Key>)
    ensures ScanMembers(Skip(u), depth, {}, decode) == ScanMembers(u, depth, {}, decode)
  {
    SkipTwice(u);
    assert ScanKey(Skip(u)) == ScanKey(u);
  }

  lemma {:induction false} ScansElements(e: Elements, post: Bytes, depth: nat, decode: Bytes -> Option<Key>)
    requires WellFormedElements(e) && DecodesStrings(decode)
    ensures ScanElements(ElementsText(e, post), depth, decode) == Verdict(AcceptsElements(e, depth, decode), post)
    decreases e
  {
    var tail := ElementsTail(e, post);
    ScansValue(e.value, e.after + tail, depth + 1, decode);
    FirstByte(e.value, e.after + tail);
    ScanAfterSpaces(e.before, Text(e.value, e.after + tail), depth + 1, decode);
    SkipsSpaces(e.after, tail);
    if e.Element? {
      ScansElements(e.next, post, depth, decode);
      Tail(COMMA, ElementsText(e.next, post));
    } else {
      Tail(CLOSE_ARRAY, post);
    }
  }

  lemma ScansKey(before: Bytes, key: Bytes, rest: Bytes)
    requires Spaces(before) && StringBody(key)
    ensures ScanKey(before + StringText(key, rest)) == Some((Quoted(key), rest))
  {
    var t := StringText(key, rest);
    SkipsSpaces(before, t);
    ScansString(key, rest);
    assert t[..|t| - |rest|] == Quoted(key);
  }

  lemma {:induction false} ScansMemberValue(m: Members, post: Bytes, depth: nat, decode: Bytes -> Option<Key>)
    requires WellFormedMembers(m) && DecodesStrings(decode)
    ensures ScanMemberValue(MemberValueText(m, post), depth, decode) ==
            Verdict(Accepts(m.value, depth + 1, decode), m.after + MembersTail(m, post))
    decreases m, 0
  {
    var value := Text(m.value, m.after + MembersTail(m, post));
    SkipsSpaces(m.gap, [COLON] + (m.pad + value));
    Tail(COLON, m.pad + value);
    FirstByte(m.value, m.after + MembersTail(m, post));
    ScanAfterSpaces(m.pad, value, depth + 1, decode);
    ScansValue(m.value, m.after + MembersTail(m, post), depth + 1, decode);
  }

  lemma {:induction false} ScansMembers(m: Members, post: Bytes, depth: nat, seen: set<Key>,
                                        decode: Bytes -> Option<Key>)
    requires WellFormedMembers(m) && DecodesStrings(decode)
    ensures ScanMembers(MembersText(m, post), depth, seen, decode) ==
            Verdict(AcceptsMembers(m, depth, seen, decode), post)
    decreases m, 1
  {
    ScansKey(m.before, m.key, MemberValueText(m, post));
    ScansMemberValue(m, post, depth, decode);
    SkipsSpaces(m.after, MembersTail(m, post));
    if m.Member? {
      Tail(COMMA, MembersText(m.next, post));
      if !KeyRefused(Quoted(m.key), seen, decode) {
        ScansMembers(m.next, post, depth, seen + {decode(Quoted(m.key)).value}, decode);
      }
    } else {
      Tail(CLOSE_OBJECT, post);
    }
  }

  // ---------------------------------------------------------------- scan order against the declarative property

  lemma {:induction false} AcceptsIff(v: Value, depth: nat, decode: Bytes -> Option<Key>)
    requires WellFormed(v) && DecodesStrings(decode)
    ensures Accepts(v, depth, decode) <==> depth + Height(v) <= MAX_DEPTH && KeysSound(v, decode)
    decreases v
  {
    match v
    case Array(elements) => AcceptsElementsIff(elements, depth, decode);
    case Object(members) =>
      AcceptsMembersIff(members, depth, {}, decode);
      FreshFromNothing(members, decode);
    case _ =>
  }

  lemma {:induction false} AcceptsElementsIff(e: Elements, depth: nat, decode: Bytes -> Option<Key>)
    requires WellFormedElements(e) && DecodesStrings(decode)
    ensures AcceptsElements(e, depth, decode) <==>
              depth + 1 + HeightElements(e) <= MAX_DEPTH && KeysSoundElements(e, decode)
    decreases e
  {
    AcceptsIff(e.value, depth + 1, decode);
    if e.Element? { AcceptsElementsIff(e.next, depth, decode); }
  }

  /** Keys of an object that the scanner can still accept after it has seen the keys `seen`. */
  predicate Fresh(keys: seq<Bytes>, seen: set<Key>, decode: Bytes -> Option<Key>) {
    && (forall i :: 0 <= i < |keys| ==> !KeyRefused(keys[i], seen, decode))
    && NoneRepeated(keys, decode)
  }

  lemma FreshCons(first: Bytes, rest: seq<Bytes>, seen: set<Key>, decode: Bytes -> Option<Key>)
    requires !KeyRefused(first, seen, decode)
    ensures Fresh([first] + rest, seen, decode) <==> Fresh(rest, seen + {decode(first).value}, decode)
  {
    var keys := [first] + rest;
    var key := decode(first).value;
    assert forall i :: 0 <= i < |rest| ==> keys[i + 1] == rest[i];
    if Fresh(rest, seen + {key}, decode) {
      forall i, j | 0 <= i < j < |keys| ensures decode(keys[i]) != decode(keys[j]) {
        assert keys[j] == rest[j - 1] && !KeyRefused(rest[j - 1], seen + {key}, decode);
        if i > 0 { assert keys[i] == rest[i - 1]; }
      }
      forall i | 0 <= i < |keys| ensures !KeyRefused(keys[i], seen, decode) {
        if i > 0 { assert !KeyRefused(rest[i - 1], seen + {key}, decode); }
      }
    }
    if Fresh(keys, seen, decode) {
      forall i | 0 <= i < |rest| ensures !KeyRefused(rest[i], seen + {key}, decode) {
        assert decode(keys[0]) != decode(keys[i + 1]);
      }
    }
  }

  lemma {:induction false} AcceptsMembersIff(m: Members, depth: nat, seen: set<Key>, decode: Bytes -> Option<Key>)
    requires WellFormedMembers(m) && DecodesStrings(decode)
    ensures AcceptsMembers(m, depth, seen, decode) <==>
              depth + 1 + HeightMembers(m) <= MAX_DEPTH && Fresh(Keys(m), seen, decode) && KeysSoundMembers(m, decode)
    decreases m
  {
    AcceptsIff(m.value, depth + 1, decode);
    var first := Quoted(m.key);
    if m.Member? && !KeyRefused(first, seen, decode) {
      AcceptsMembersIff(m.next, depth, seen + {decode(first).value}, decode);
      FreshCons(first, Keys(m.next), seen, decode);
    } else if KeyRefused(first, seen, decode) {
      assert Keys(m)[0] == first;
    }
  }

  lemma FreshFromNothing(m: Members, decode: Bytes -> Option<Key>)
    requires WellFormedMembers(m) && DecodesStrings(decode)
    ensures Fresh(Keys(m), {}, decode) <==>
              NoneRepeated(Keys(m), decode) && (forall k :: k in Keys(m) ==> |k| <= MAX_KEY_BYTES)
  {
    KeysDecode(m, decode);
  }

  lemma {:induction false} KeysDecode(m: Members, decode: Bytes -> Option<Key>)
    requires WellFormedMembers(m) && DecodesStrings(decode)
    ensures forall k :: k in Keys(m) ==> decode(k).Some?
  {
    if m.Member? { KeysDecode(m.next, decode); }
  }

  // ---------------------------------------------------------------- whole frames

  /** The scan that a frame check starts, together with its final trailing-data test. */
  function ScanFrame(raw: Bytes, decode: Bytes -> Option<Key>): Scan {
    match ScanValue(raw, 0, decode)
    case Ok(rest) => if Skip(rest) == [] then Ok([]) else Refused
    case other => other
  }

  /** On every valid JSON text the scan stays in bounds, ends at the end of the text, and accepts iff
      the text's tree is no deeper than 32 and all its objects have short distinct keys. */
  lemma FrameScanIsExact(raw: Bytes, v: Value, decode: Bytes -> Option<Key>)
    requires TextOf(raw, v) && DecodesStrings(decode)
    ensures ScanFrame(raw, decode) == Verdict(Admissible(v, decode), [])
  {
    var before: Bytes, after: Bytes :| IsFramed(raw, before, v, after);
    FirstByte(v, after);
    ScanAfterSpaces(before, Text(v, after), 0, decode);
    ScansValue(v, after, 0, decode);
    AcceptsIff(v, 0, decode);
    SkipsSpaces(after, []);
    assert after + [] == after;
  }

  /** Without the validity check the same scan would run off the end of its buffer. */
  lemma TruncatedObjectPanics(decode: Bytes -> Option<Key>)
    ensures ScanFrame([OPEN_OBJECT], decode) == Panic
  {
    var raw: Bytes := [OPEN_OBJECT];
    assert raw[1..] == [];
    assert Skip(raw) == raw;
    assert ScanObject(raw, 0, decode) == Panic;
  }
}
