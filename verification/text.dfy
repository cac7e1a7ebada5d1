/** Strings as JavaScript's `String.prototype.trim` sees them. */
module Text {

  /** The characters `trim` strips: ECMAScript's WhiteSpace (tab, vertical tab,
      form feed, space, no-break space, byte order mark and every other
      space separator) and LineTerminator (line feed, carriage return, line
      and paragraph separators). */
  predicate IsWhitespace(c: char) {
    || ('\t' <= c <= '\r')
    || c == ' ' || c == '\U{00A0}' || c == '\U{1680}'
    || ('\U{2000}' <= c <= '\U{200A}')
    || c == '\U{2028}' || c == '\U{2029}' || c == '\U{202F}' || c == '\U{205F}'
    || c == '\U{3000}' || c == '\U{FEFF}'
  }

  /** Every character of `s` is whitespace. */
  predicate AllWhitespace(s: string) {
    forall k :: 0 <= k < |s| ==> IsWhitespace(s[k])
  }

  /** `s` neither starts nor ends with whitespace. */
  predicate Trimmed(s: string) {
    s == [] || (!IsWhitespace(s[0]) && !IsWhitespace(s[|s| - 1]))
  }

  /** `s.trim()`: whitespace removed at both ends, one character at a time. */
  function Trim(s: string): (r: string)
    ensures Trimmed(r)
    ensures |r| <= |s|
  {
    if s != [] && IsWhitespace(s[0]) then Trim(s[1..])
    else if s != [] && IsWhitespace(s[|s| - 1]) then Trim(s[..|s| - 1])
    else s
  }

  /** How many whitespace characters `s` starts with. */
  function LeadingWhitespace(s: string): (n: nat)
    ensures n <= |s|
    ensures n < |s| ==> !IsWhitespace(s[n])
  {
    if s != [] && IsWhitespace(s[0]) then 1 + LeadingWhitespace(s[1..]) else 0
  }

  /** Where the trailing whitespace of `s` begins. */
  function TrailingWhitespace(s: string): (m: nat)
    ensures m <= |s|
    ensures 0 < m ==> !IsWhitespace(s[m - 1])
  {
    if s != [] && IsWhitespace(s[|s| - 1]) then TrailingWhitespace(s[..|s| - 1]) else |s|
  }

  /** The leading run counted by `LeadingWhitespace` is all whitespace. */
  lemma {:induction false} LeadingIsWhitespace(s: string)
    ensures AllWhitespace(s[..LeadingWhitespace(s)])
  {
    if s != [] && IsWhitespace(s[0]) {
      LeadingIsWhitespace(s[1..]);
      var n := LeadingWhitespace(s);
      assert forall k :: 1 <= k < n ==> s[k] == s[1..][..n - 1][k - 1];
    }
  }

  /** The trailing run found by `TrailingWhitespace` is all whitespace. */
  lemma {:induction false} TrailingIsWhitespace(s: string)
    ensures AllWhitespace(s[TrailingWhitespace(s)..])
  {
    if s != [] && IsWhitespace(s[|s| - 1]) {
      TrailingIsWhitespace(s[..|s| - 1]);
      var m := TrailingWhitespace(s);
      assert forall k :: m <= k < |s| - 1 ==> s[k] == s[..|s| - 1][m..][k - m];
    }
  }

  /** A reference definition of `trim`: cut the leading whitespace run,
      then the trailing one. */
  function TrimByRuns(s: string): string {
    var t := s[LeadingWhitespace(s)..];
    t[..TrailingWhitespace(t)]
  }

  /** Stripping one character at a time agrees with cutting whole runs. */
  lemma {:induction false} TrimMatchesRuns(s: string)
    ensures Trim(s) == TrimByRuns(s)
  {
    if s != [] && IsWhitespace(s[0]) {
      TrimMatchesRuns(s[1..]);
      assert s[LeadingWhitespace(s)..] == s[1..][LeadingWhitespace(s[1..])..];
    } else if s != [] && IsWhitespace(s[|s| - 1]) {
      var u := s[..|s| - 1];
      TrimMatchesRuns(u);
      assert u[0] == s[0];
      assert LeadingWhitespace(u) == 0;
      assert s[0..] == s && u[0..] == u;
    } else if s != [] {
      assert s[0..] == s;
    }
  }

  /** What `trim` leaves: an infix of `s` reached by dropping only whitespace. */
  lemma {:induction false} TrimIsInfix(s: string)
    ensures var i := LeadingWhitespace(s);
      && i + |Trim(s)| <= |s|
      && Trim(s) == s[i..i + |Trim(s)|]
      && (forall k :: 0 <= k < i ==> IsWhitespace(s[k]))
      && (forall k :: i + |Trim(s)| <= k < |s| ==> IsWhitespace(s[k]))
  {
    TrimMatchesRuns(s);
    var i := LeadingWhitespace(s);
    var t := s[i..];
    var j := TrailingWhitespace(t);
    LeadingIsWhitespace(s);
    TrailingIsWhitespace(t);
    assert Trim(s) == s[i..i + j];
    assert forall k :: 0 <= k < i ==> s[k] == s[..i][k];
    assert forall k :: i + j <= k < |s| ==> s[k] == t[j..][k - i - j];
  }

  /** `trim` yields the empty string exactly for all-whitespace input. */
  lemma {:induction false} TrimEmptyIff(s: string)
    ensures Trim(s) == [] <==> AllWhitespace(s)
  {
    TrimMatchesRuns(s);
    var i := LeadingWhitespace(s);
    LeadingIsWhitespace(s);
    if Trim(s) == [] {
      var t := s[i..];
      TrailingIsWhitespace(t);
      assert s[..i] == s;
    } else {
      TrimIsInfix(s);
      assert s[i] == Trim(s)[0];
    }
  }

  /** Trimming twice is trimming once. */
  lemma {:induction false} TrimIdempotent(s: string)
    ensures Trim(Trim(s)) == Trim(s)
  {
  }

  /** Characters other than whitespace survive trimming. */
  lemma TrimKeepsContent(s: string, k: nat)
    requires k < |s| && !IsWhitespace(s[k])
    ensures Trim(s) != []
    ensures s[k] in Trim(s)
  {
    TrimIsInfix(s);
    var i := LeadingWhitespace(s);
    var r := Trim(s);
    assert r[k - i] == s[k];
  }
}
