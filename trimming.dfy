/** Whitespace trimming as performed by JavaScript's `String.prototype.trim`:
    strip white space and line terminators from both ends of a string. */
module Trimming {

  /** ECMAScript WhiteSpace and LineTerminator code points: tab, vertical tab,
      form feed, the space separators (Unicode category Zs), the byte order
      mark, line feed, carriage return, line separator, paragraph separator. */
  predicate IsWs(c: char) {
    c == '\t' || c == '\U{000B}' || c == '\U{000C}' || c == ' '
    || c == '\U{00A0}' || c == '\U{1680}'
    || ('\U{2000}' <= c <= '\U{200A}')
    || c == '\U{202F}' || c == '\U{205F}' || c == '\U{3000}'
    || c == '\U{FEFF}'
    || c == '\n' || c == '\r' || c == '\U{2028}' || c == '\U{2029}'
  }

  predicate AllWs(s: string) {
    forall i :: 0 <= i < |s| ==> IsWs(s[i])
  }

  /** Neither end of `s` is whitespace (vacuously true of the empty string). */
  predicate HasNoSurroundingWs(s: string) {
    s == [] || (!IsWs(s[0]) && !IsWs(s[|s| - 1]))
  }

  /** Drops the leading whitespace: the result is a suffix of `s`, what was
      dropped is all whitespace, and the result does not start with any. */
  function TrimStart(s: string): (r: string)
    ensures |r| <= |s| && r == s[|s| - |r|..]
    ensures AllWs(s[..|s| - |r|])
    ensures r == [] || !IsWs(r[0])
  {
    if s != [] && IsWs(s[0]) then TrimStart(s[1..]) else s
  }

  /** Drops the trailing whitespace: the result is a prefix of `s`, what was
      dropped is all whitespace, and the result does not end with any. */
  function TrimEnd(s: string): (r: string)
    ensures |r| <= |s| && r == s[..|r|]
    ensures AllWs(s[|r|..])
    ensures r == [] || !IsWs(r[|r| - 1])
  {
    if s != [] && IsWs(s[|s| - 1]) then TrimEnd(s[..|s| - 1]) else s
  }

  function Trim(s: string): (r: string) {
    TrimEnd(TrimStart(s))
  }

  lemma {:induction false} TrimStartSkipsWs(p: string, s: string)
    requires AllWs(p)
    ensures TrimStart(p + s) == TrimStart(s)
  {
    if p != [] {
      assert (p + s)[0] == p[0];
      assert (p + s)[1..] == p[1..] + s;
      TrimStartSkipsWs(p[1..], s);
    } else {
      assert p + s == s;
    }
  }

  lemma {:induction false} TrimEndSkipsWs(s: string, q: string)
    requires AllWs(q)
    ensures TrimEnd(s + q) == TrimEnd(s)
  {
    if q != [] {
      assert (s + q)[|s + q| - 1] == q[|q| - 1];
      assert (s + q)[..|s + q| - 1] == s + q[..|q| - 1];
      TrimEndSkipsWs(s, q[..|q| - 1]);
    } else {
      assert s + q == s;
    }
  }

  lemma TrimStartSplits(s: string) returns (lead: string)
    ensures AllWs(lead) && s == lead + TrimStart(s)
  {
    lead := s[..|s| - |TrimStart(s)|];
  }

  lemma TrimEndSplits(s: string) returns (trail: string)
    ensures AllWs(trail) && s == TrimEnd(s) + trail
  {
    trail := s[|TrimEnd(s)|..];
  }

  /** What `Trim` returns is the string with whitespace padding removed: the
      original is that result with all-whitespace text on either side. */
  lemma TrimSplits(s: string) returns (lead: string, trail: string)
    ensures AllWs(lead) && AllWs(trail)
    ensures s == lead + Trim(s) + trail
  {
    lead := TrimStartSplits(s);
    trail := TrimEndSplits(TrimStart(s));
    ConcatAssoc(lead, Trim(s), trail);
  }

  /** Regrouping a concatenation, stated apart from the trimming context so
      that the solver does not search sequence equalities there. */
  lemma ConcatAssoc(a: string, b: string, c: string)
    ensures a + b + c == a + (b + c)
  {
  }

  /** Trimming ends at characters that are not whitespace. */
  lemma TrimHasNoSurroundingWs(s: string)
    ensures HasNoSurroundingWs(Trim(s))
  {
    var t := TrimStart(s);
    var r := TrimEnd(t);
    if r != [] {
      assert r[0] == t[0];
    }
  }

  /** Conversely, padding a string that has no surrounding whitespace and
      trimming it again gives that string back, interior whitespace intact.
      With TrimSplits this pins `Trim(s)` down uniquely. */
  lemma TrimRemovesPadding(lead: string, t: string, trail: string)
    requires AllWs(lead) && AllWs(trail) && HasNoSurroundingWs(t)
    ensures Trim(lead + t + trail) == t
  {
    assert lead + t + trail == lead + (t + trail);
    TrimStartSkipsWs(lead, t + trail);
    if t == [] {
      assert t + trail == trail + [];
      TrimStartSkipsWs(trail, []);
    } else {
      assert (t + trail)[0] == t[0];
      TrimEndSkipsWs(t, trail);
    }
  }

  /** A string is its own trim exactly when neither end is whitespace. */
  lemma TrimFixedIff(s: string)
    ensures Trim(s) == s <==> HasNoSurroundingWs(s)
  {
    if HasNoSurroundingWs(s) {
      assert s == [] + s + [];
      TrimRemovesPadding([], s, []);
    } else {
      TrimHasNoSurroundingWs(s);
    }
  }

  lemma TrimIdempotent(s: string)
    ensures Trim(Trim(s)) == Trim(s)
  {
    TrimHasNoSurroundingWs(s);
    TrimFixedIff(Trim(s));
  }

  /** Trimming leaves nothing exactly when the input is all whitespace. */
  lemma TrimEmptyIff(s: string)
    ensures Trim(s) == [] <==> AllWs(s)
  {
    var lead, trail := TrimSplits(s);
    if AllWs(s) {
      assert s == s + [] + [];
      TrimRemovesPadding(s, [], []);
    }
  }
}
