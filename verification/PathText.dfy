/** Texts that name paths: components between slashes, and the order of texts. */
module PathText {
  import opened Collections

  predicate SlashFree(s: string) { forall i :: 0 <= i < |s| ==> s[i] != '/' }

  /** What precedes the first slash. */
  function Head(s: string): string { if s == [] || s[0] == '/' then [] else [s[0]] + Head(s[1..]) }

  lemma {:induction false} HeadIs(a: string, rest: string)
    requires SlashFree(a) && (rest == [] || rest[0] == '/')
    ensures Head(a + rest) == a
  {
    if a == [] {
      assert a + rest == rest;
    } else {
      assert (a + rest)[1..] == a[1..] + rest;
      HeadIs(a[1..], rest);
    }
  }

  lemma {:induction false} HeadBounds(s: string)
    ensures |Head(s)| <= |s| && SlashFree(Head(s)) && (|Head(s)| == |s| <==> SlashFree(s))
  {
    if s != [] && s[0] != '/' { HeadBounds(s[1..]); }
  }

  function Under(a: string, rest: string): string { a + "/" + rest }

  lemma HeadUnder(a: string, rest: string)
    requires SlashFree(a)
    ensures Head(Under(a, rest)) == a && Under(a, rest)[|a| + 1..] == rest
  {
    assert Under(a, rest) == a + ("/" + rest);
    HeadIs(a, "/" + rest);
  }

  lemma SlashSplits(a: string, x: string, b: string, y: string)
    requires SlashFree(a) && SlashFree(b) && Under(a, x) == Under(b, y)
    ensures a == b && x == y
  {
    HeadUnder(a, x);
    HeadUnder(b, y);
  }

  /** The parts of a text between slashes. */
  function Split(s: string): seq<string> {
    if |Head(s)| >= |s| then [s] else [Head(s)] + Split(s[|Head(s)| + 1..])
  }

  lemma SplitUnder(a: string, rest: string)
    requires SlashFree(a)
    ensures Split(Under(a, rest)) == [a] + Split(rest)
  {
    HeadUnder(a, rest);
  }

  lemma SplitLast(a: string)
    requires SlashFree(a)
    ensures Split(a) == [a]
  {
    HeadBounds(a);
  }

  /** Components joined by slashes. */
  function Joined(p: seq<string>): string {
    if p == [] then [] else if |p| == 1 then p[0] else Under(p[0], Joined(p[1..]))
  }

  predicate Componentwise(p: seq<string>) { p != [] && forall i :: 0 <= i < |p| ==> SlashFree(p[i]) }

  /** Splitting a joined path gives its components back. */
  lemma {:induction false} SplitJoined(p: seq<string>)
    requires Componentwise(p)
    ensures Split(Joined(p)) == p
  {
    if |p| == 1 {
      SplitLast(p[0]);
      assert p == [p[0]];
    } else {
      SplitJoined(p[1..]);
      SplitUnder(p[0], Joined(p[1..]));
      assert p == [p[0]] + p[1..];
    }
  }

  function CharOrder(): (char, char) -> bool { (a: char, b: char) => a < b }

  /** Texts in the order of their characters. */
  function TextOrder(): (string, string) -> bool { Lexicographic(CharOrder()) }

  lemma TextIsStrict()
    ensures Strict(TextOrder())
  {
    LexicographicIsStrict(CharOrder());
  }
}
