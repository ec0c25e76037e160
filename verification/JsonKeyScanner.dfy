/** The frame scanner as an object that moves an offset over the raw bytes, and the frame check itself. */
module JsonKeyScanner {
  import opened Common
  import opened JsonGrammar
  import opened JsonScan

  class JsonKeyScanner {
    const raw: Bytes
    const decode: Bytes -> Option<Key>
    var offset: nat

    constructor (raw: Bytes, decode: Bytes -> Option<Key>)
      ensures this.raw == raw && this.decode == decode && offset == 0
    {
      this.raw, this.decode, offset := raw, decode, 0;
    }

    ghost function Unread(): Bytes
      reads this
      requires offset <= |raw|
    {
      raw[offset..]
    }

    method SkipWhitespace()
      requires offset <= |raw|
      modifies this
      ensures old(offset) <= offset <= |raw| && Unread() == Skip(old(Unread()))
    {
      while offset < |raw| && IsSpace(raw[offset])
        invariant old(offset) <= offset <= |raw|
        invariant Skip(Unread()) == Skip(old(Unread()))
      {
        assert raw[offset..][1..] == raw[offset + 1..];
        offset := offset + 1;
      }
    }

    /** Moves past a string token; on failure the offset is of no further use. */
    method ScanString() returns (ok: bool, encoded: Bytes)
      requires offset < |raw| && raw[offset] == QUOTE
      modifies this
      ensures var closed := SkipString(old(Unread())[1..]);
              ok == closed.Some? &&
              (ok ==>
                && old(offset) < offset <= |raw| && Unread() == closed.value
                && encoded == raw[old(offset)..offset])
    {
      var start := offset;
      offset := offset + 1;
      ghost var whole := SkipString(raw[start..][1..]);
      assert raw[start..][1..] == raw[start + 1..];
      while offset < |raw|
        invariant start < offset
        invariant offset <= |raw| ==> SkipString(raw[offset..]) == whole
        invariant offset > |raw| ==> whole.None?
      {
        if raw[offset] == QUOTE {
          offset := offset + 1;
          return true, raw[start..offset];
        } else if raw[offset] == BACKSLASH {
          assert offset + 2 <= |raw| ==> raw[offset..][2..] == raw[offset + 2..];
          offset := offset + 2;
        } else {
          assert raw[offset..][1..] == raw[offset + 1..];
          offset := offset + 1;
        }
      }
      return false, [];
    }

    method ScanScalar() returns (ok: bool)
      requires offset < |raw|
      modifies this
      ensures ok == !IsTerminator(old(Unread())[0])
      ensures ok ==> old(offset) < offset <= |raw| && Unread() == SkipScalar(old(Unread()))
    {
      var start := offset;
      while offset < |raw| && !IsTerminator(raw[offset])
        invariant start <= offset <= |raw|
        invariant SkipScalar(Unread()) == SkipScalar(old(Unread()))
        invariant start < offset ==> !IsTerminator(raw[start])
      {
        assert raw[offset..][1..] == raw[offset + 1..];
        offset := offset + 1;
      }
      ok := offset != start;
    }

    /** `r` is what the suffix scan returns for the text that was unread before. */
    ghost predicate Follows(before: nat, ok: bool, r: Scan)
      reads this
    {
      if ok then before < offset <= |raw| && r == Ok(raw[offset..]) else r == Refused
    }

    method ScanValue(depth: nat) returns (ok: bool)
      requires offset <= |raw|
      requires JsonScan.ScanValue(Unread(), depth, decode) != Panic
      modifies this
      ensures Follows(old(offset), ok, old(JsonScan.ScanValue(Unread(), depth, decode)))
      decreases |raw| - offset, 2
    {
      if depth > MAX_DEPTH { return false; }
      SkipWhitespace();
      if offset >= |raw| { return false; }
      if raw[offset] == OPEN_OBJECT {
        ok := ScanObject(depth);
      } else if raw[offset] == OPEN_ARRAY {
        ok := ScanArray(depth);
      } else if raw[offset] == QUOTE {
        var token;
        ok, token := ScanString();
      } else {
        ok := ScanScalar();
      }
    }

    /** One object key, refused when it is missing, too long, undecodable or already seen. */
    method NextKey(seen: set<Key>) returns (ok: bool, key: Key)
      requires offset <= |raw|
      modifies this
      ensures var k := ScanKey(old(Unread()));
              ok == (k.Some? && !KeyRefused(k.value.0, seen, decode)) &&
              (ok ==>
                && old(offset) < offset <= |raw| && Unread() == k.value.1
                && Some(key) == decode(k.value.0))
    {
      SkipWhitespace();
      if offset >= |raw| || raw[offset] != QUOTE { return false, ""; }
      var encoded;
      ghost var t := Unread();
      ok, encoded := ScanString();
      if !ok { return false, ""; }
      assert t[..|t| - |Unread()|] == encoded;
      if |encoded| > MAX_KEY_BYTES { return false, ""; }
      var decoded := decode(encoded);
      if decoded.None? || decoded.value in seen { return false, ""; }
      return true, decoded.value;
    }

    method Take()
      requires offset < |raw|
      modifies this
      ensures offset == old(offset) + 1 && Unread() == old(Unread())[1..]
    {
      offset := offset + 1;
    }

    method MemberValue(depth: nat) returns (ok: bool)
      requires offset <= |raw|
      requires ScanMemberValue(Unread(), depth, decode) != Panic
      modifies this
      ensures Follows(old(offset), ok, old(ScanMemberValue(Unread(), depth, decode)))
      decreases |raw| - offset, 3
    {
      SkipWhitespace();
      if raw[offset] != COLON { return false; }
      Take();
      ok := ScanValue(depth + 1);
    }

    method ScanObject(depth: nat) returns (ok: bool)
      requires offset < |raw|
      requires JsonScan.ScanObject(Unread(), depth, decode) != Panic
      modifies this
      ensures Follows(old(offset), ok, old(JsonScan.ScanObject(Unread(), depth, decode)))
      decreases |raw| - offset, 1
    {
      Take();
      SkipWhitespace();
      if raw[offset] == CLOSE_OBJECT {
        Take();
        return true;
      }
      ok := MemberLoop(depth);
    }

    method MemberLoop(depth: nat) returns (ok: bool)
      requires offset <= |raw|
      requires ScanMembers(Unread(), depth, {}, decode) != Panic
      modifies this
      ensures Follows(old(offset), ok, old(ScanMembers(Unread(), depth, {}, decode)))
      decreases |raw| - offset, 4
    {
      ghost var start, whole := offset, ScanMembers(Unread(), depth, {}, decode);
      var seen: set<Key> := {};
      while true
        invariant start <= offset <= |raw|
        invariant whole != Panic && ScanMembers(Unread(), depth, seen, decode) == whole
        decreases |raw| - offset
      {
        var key;
        ok, key := NextKey(seen);
        if !ok { return false; }
        seen := seen + {key};
        ok := MemberValue(depth);
        if !ok { return false; }
        SkipWhitespace();
        if raw[offset] == CLOSE_OBJECT {
          Take();
          return true;
        } else if raw[offset] == COMMA {
          Take();
        } else {
          return false;
        }
      }
    }

    method ScanArray(depth: nat) returns (ok: bool)
      requires offset < |raw|
      requires JsonScan.ScanArray(Unread(), depth, decode) != Panic
      modifies this
      ensures Follows(old(offset), ok, old(JsonScan.ScanArray(Unread(), depth, decode)))
      decreases |raw| - offset, 1
    {
      Take();
      SkipWhitespace();
      if raw[offset] == CLOSE_ARRAY {
        Take();
        return true;
      }
      ok := ElementLoop(depth);
    }

    method ElementLoop(depth: nat) returns (ok: bool)
      requires offset <= |raw|
      requires ScanElements(Unread(), depth, decode) != Panic
      modifies this
      ensures Follows(old(offset), ok, old(ScanElements(Unread(), depth, decode)))
      decreases |raw| - offset, 4
    {
      ghost var start, whole := offset, ScanElements(Unread(), depth, decode);
      while true
        invariant start <= offset <= |raw|
        invariant whole != Panic && ScanElements(Unread(), depth, decode) == whole
        decreases |raw| - offset
      {
        ok := ScanValue(depth + 1);
        if !ok { return false; }
        SkipWhitespace();
        if raw[offset] == CLOSE_ARRAY {
          Take();
          return true;
        } else if raw[offset] == COMMA {
          Take();
        } else {
          return false;
        }
      }
    }
  }

  /** `rejectDuplicateJSONKeys`; `jsonValid` is the answer of the standard library's validity check, which may
      also refuse valid texts nested deeper than frames may be. */
  method RejectDuplicateJSONKeys(raw: Bytes, jsonValid: bool, decode: Bytes -> Option<Key>) returns (ok: bool)
    requires jsonValid ==> ValidJson(raw)
    requires forall v :: TextOf(raw, v) && Height(v) <= MAX_DEPTH ==> jsonValid
    requires DecodesStrings(decode)
    ensures !ValidJson(raw) ==> !ok
    ensures forall v :: TextOf(raw, v) ==> (ok <==> Admissible(v, decode))
  {
    if !jsonValid { return false; }
    forall v | TextOf(raw, v)
      ensures ScanFrame(raw, decode) == Verdict(Admissible(v, decode), [])
    {
      FrameScanIsExact(raw, v, decode);
    }
    ghost var tree :| TextOf(raw, tree);
    assert ScanFrame(raw, decode) != Panic;
    var scanner := new JsonKeyScanner(raw, decode);
    assert raw[0..] == raw;
    ok := scanner.ScanValue(0);
    if ok {
      scanner.SkipWhitespace();
      ok := scanner.offset == |raw|;
    }
  }
}
