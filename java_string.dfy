/** The three operations of java.lang.String that the branch/version check
    relies on: trim(), split("\\.") and equalsIgnoreCase(). A Java string is
    modelled as a sequence of chars. */
module JavaString {

  // ---------------------------------------------------------------------------
  // trim()
  // ---------------------------------------------------------------------------

  /** trim() removes every leading and trailing character whose code is at
      most U+0020 (space and all control characters). */
  predicate IsTrimmable(c: char) {
    c <= ' '
  }

  predicate AllTrimmable(s: string) {
    forall i :: 0 <= i < |s| ==> IsTrimmable(s[i])
  }

  /** A string trim() leaves alone at both ends: empty, or it begins and ends
      with a character above U+0020. */
  predicate TrimmedEnds(s: string) {
    s == [] || (!IsTrimmable(s[0]) && !IsTrimmable(s[|s| - 1]))
  }

  /** How many characters trim() drops at the front. */
  function LeadingBlanks(s: string): (n: nat)
    ensures n <= |s|
    ensures AllTrimmable(s[..n])
    ensures n < |s| ==> !IsTrimmable(s[n])
  {
    if |s| == 0 || !IsTrimmable(s[0]) then 0 else 1 + LeadingBlanks(s[1..])
  }

  /** How many characters trim() keeps once the trailing ones are dropped. */
  function KeptLength(s: string): (n: nat)
    ensures n <= |s|
    ensures AllTrimmable(s[n..])
    ensures n > 0 ==> !IsTrimmable(s[n - 1])
  {
    if |s| == 0 || !IsTrimmable(s[|s| - 1]) then |s| else KeptLength(s[..|s| - 1])
  }

  /** String.trim(): first the leading, then the trailing characters at or
      below U+0020 are removed. */
  function Trim(s: string): string
  {
    var t := s[LeadingBlanks(s)..];
    t[..KeptLength(t)]
  }

  /** trim() returns a contiguous piece of its input, everything it dropped
      on either side is at or below U+0020, and the piece itself has no such
      character at either end. */
  lemma TrimShape(s: string)
    ensures LeadingBlanks(s) + |Trim(s)| <= |s|
    ensures s == s[..LeadingBlanks(s)] + Trim(s) + s[LeadingBlanks(s) + |Trim(s)|..]
    ensures AllTrimmable(s[..LeadingBlanks(s)])
    ensures AllTrimmable(s[LeadingBlanks(s) + |Trim(s)|..])
    ensures TrimmedEnds(Trim(s))
  {
    var i := LeadingBlanks(s);
    var t := s[i..];
    var n := KeptLength(t);
    assert Trim(s) == t[..n];
    assert s[i + n..] == t[n..];
    if n > 0 {
      assert Trim(s)[0] == s[i];
    }
  }

  lemma {:induction false} LeadingBlanksOf(pre: string, rest: string)
    requires AllTrimmable(pre)
    requires rest == [] || !IsTrimmable(rest[0])
    ensures LeadingBlanks(pre + rest) == |pre|
  {
    if pre != [] {
      assert (pre + rest)[1..] == pre[1..] + rest;
      LeadingBlanksOf(pre[1..], rest);
    }
  }

  lemma {:induction false} KeptLengthOf(body: string, suf: string)
    requires AllTrimmable(suf)
    requires body == [] || !IsTrimmable(body[|body| - 1])
    ensures KeptLength(body + suf) == |body|
  {
    if suf != [] {
      var s := body + suf;
      assert s[..|s| - 1] == body + suf[..|suf| - 1];
      KeptLengthOf(body, suf[..|suf| - 1]);
    }
  }

  /** The converse of TrimShape: whatever is framed by characters at or below
      U+0020 and has no such character at its own ends is what trim() gives. */
  lemma TrimOf(pre: string, mid: string, suf: string)
    requires AllTrimmable(pre) && AllTrimmable(suf) && TrimmedEnds(mid)
    ensures Trim(pre + mid + suf) == mid
  {
    var s := pre + mid + suf;
    if mid == [] {
      assert s == (pre + suf) + [];
      assert AllTrimmable(pre + suf);
      LeadingBlanksOf(pre + suf, []);
    } else {
      assert s == pre + (mid + suf);
      LeadingBlanksOf(pre, mid + suf);
      assert s[|pre|..] == mid + suf;
      KeptLengthOf(mid, suf);
    }
  }

  /** Trimming twice is trimming once. */
  lemma TrimIdempotent(s: string)
    ensures Trim(Trim(s)) == Trim(s)
  {
  }

  // ---------------------------------------------------------------------------
  // split("\\.")
  // ---------------------------------------------------------------------------

  /** The substrings between the dots of s, all of them kept, including empty
      ones: one more than the number of dots. */
  function Pieces(s: string): (ps: seq<string>)
    ensures |ps| >= 1
    ensures forall i :: 0 <= i < |ps| ==> '.' !in ps[i]
  {
    if |s| == 0 then [""]
    else if s[0] == '.' then [""] + Pieces(s[1..])
    else
      var t := Pieces(s[1..]);
      [[s[0]] + t[0]] + t[1..]
  }

  /** String.join(".", ps). */
  function Join(ps: seq<string>): string
    requires |ps| >= 1
  {
    if |ps| == 1 then ps[0] else ps[0] + "." + Join(ps[1..])
  }

  /** Drops the empty strings at the end of ps, as split with limit 0 does. */
  function DropTrailingEmpty(ps: seq<string>): (r: seq<string>)
    ensures r <= ps
    ensures forall i :: |r| <= i < |ps| ==> ps[i] == ""
    ensures r != [] ==> r[|r| - 1] != ""
  {
    if |ps| > 0 && ps[|ps| - 1] == "" then DropTrailingEmpty(ps[..|ps| - 1]) else ps
  }

  /** String.split("\\."): when s holds no dot the result is s alone (so the
      empty string gives one empty segment); otherwise the pieces between the
      dots with the trailing empty ones removed (so "." gives none at all). */
  function Split(s: string): (r: seq<string>)
    ensures forall i :: 0 <= i < |r| ==> '.' !in r[i]
    ensures '.' in s ==> r <= Pieces(s)
  {
    if '.' !in s then [s] else DropTrailingEmpty(Pieces(s))
  }

  lemma {:induction false} PiecesNoDot(a: string)
    requires '.' !in a
    ensures Pieces(a) == [a]
  {
    if a != [] {
      PiecesNoDot(a[1..]);
      assert [a[0]] + a[1..] == a;
    }
  }

  lemma {:induction false} PiecesCons(a: string, rest: string)
    requires '.' !in a
    ensures Pieces(a + "." + rest) == [a] + Pieces(rest)
  {
    var s := a + "." + rest;
    if a == [] {
      assert s[1..] == rest;
    } else {
      assert s[1..] == a[1..] + "." + rest;
      PiecesCons(a[1..], rest);
      assert [a[0]] + a[1..] == a;
    }
  }

  /** Joining the pieces with dots gives back the string. */
  lemma {:induction false} JoinPieces(s: string)
    ensures Join(Pieces(s)) == s
    decreases |s|
  {
    if |s| == 0 {
    } else if s[0] == '.' {
      JoinPieces(s[1..]);
      assert ([""] + Pieces(s[1..]))[1..] == Pieces(s[1..]);
    } else {
      var t := Pieces(s[1..]);
      JoinPieces(s[1..]);
      var ps := [[s[0]] + t[0]] + t[1..];
      assert ps[1..] == t[1..];
      if |t| > 1 {
        assert Join(t) == t[0] + "." + Join(t[1..]);
      }
    }
  }

  /** Splitting a dot-joined list of dot-free pieces gives the list back. */
  lemma {:induction false} PiecesJoin(ps: seq<string>)
    requires |ps| >= 1
    requires forall i :: 0 <= i < |ps| ==> '.' !in ps[i]
    ensures Pieces(Join(ps)) == ps
  {
    if |ps| == 1 {
      PiecesNoDot(ps[0]);
    } else {
      PiecesJoin(ps[1..]);
      PiecesCons(ps[0], Join(ps[1..]));
      assert [ps[0]] + ps[1..] == ps;
    }
  }

  /** split("\\.") inverts joining with dots, as long as no piece holds a dot
      and, when there is a dot at all, the last piece is not empty. */
  lemma SplitJoin(ps: seq<string>)
    requires |ps| >= 1
    requires forall i :: 0 <= i < |ps| ==> '.' !in ps[i]
    requires |ps| == 1 || ps[|ps| - 1] != ""
    ensures Split(Join(ps)) == ps
  {
    PiecesJoin(ps);
    if |ps| > 1 {
      assert '.' in Join(ps) by {
        assert Join(ps) == ps[0] + "." + Join(ps[1..]);
        assert Join(ps)[|ps[0]|] == '.';
      }
    }
  }

  /** A string spelling a.b, possibly followed by a dot and more, splits
      into a and b first. */
  lemma SplitOfTwoFields(s: string, a: string, b: string)
    requires '.' !in a && '.' !in b && b != ""
    requires s == a + "." + b || a + "." + b + "." <= s
    ensures |Split(s)| >= 2 && Split(s)[0] == a && Split(s)[1] == b
  {
    if s == a + "." + b {
      SplitJoin([a, b]);
      assert Join([a, b]) == a + "." + b;
    } else {
      var rest := s[|a + "." + b + "."|..];
      assert s == a + "." + (b + "." + rest);
      PiecesCons(a, b + "." + rest);
      PiecesCons(b, rest);
      assert s[|a|] == '.';
      assert Pieces(s)[1] == b;
    }
  }

  /** A string whose first two segments are a and b spells a.b, possibly
      followed by a dot and more. */
  lemma FieldsOfSplit(s: string, a: string, b: string)
    requires |Split(s)| >= 2 && Split(s)[0] == a && Split(s)[1] == b
    ensures s == a + "." + b || a + "." + b + "." <= s
  {
    var ps := Pieces(s);
    assert '.' in s;
    assert ps[0] == a && ps[1] == b;
    JoinPieces(s);
    assert Join(ps) == a + "." + Join(ps[1..]);
    if |ps| > 2 {
      assert Join(ps[1..]) == b + "." + Join(ps[2..]);
      assert s == a + "." + b + "." + Join(ps[2..]);
    }
  }

  /** The first two segments of split("\\.") are a and b exactly when the
      string is a.b, or begins with a.b followed by a dot. */
  lemma SplitFirstTwo(s: string, a: string, b: string)
    requires '.' !in a && '.' !in b && b != ""
    ensures (|Split(s)| >= 2 && Split(s)[0] == a && Split(s)[1] == b)
        <==> (s == a + "." + b || a + "." + b + "." <= s)
  {
    if |Split(s)| >= 2 && Split(s)[0] == a && Split(s)[1] == b {
      FieldsOfSplit(s, a, b);
    }
    if s == a + "." + b || a + "." + b + "." <= s {
      SplitOfTwoFields(s, a, b);
    }
  }

  // ---------------------------------------------------------------------------
  // equalsIgnoreCase()
  // ---------------------------------------------------------------------------

  /** Character.toUpperCase for the ASCII letters and for the two other
      characters whose upper case is an ASCII letter (dotless i, long s). */
  function ToUpperCase(c: char): char
  {
    if 'a' <= c <= 'z' then (c as int - 32) as char
    else if c == '\U{0131}' then 'I'
    else if c == '\U{017F}' then 'S'
    else c
  }

  /** Character.toLowerCase for the ASCII letters and for the two other
      characters whose lower case is an ASCII letter (dotted capital I,
      Kelvin sign). */
  function ToLowerCase(c: char): char
  {
    if 'A' <= c <= 'Z' then (c as int + 32) as char
    else if c == '\U{0130}' then 'i'
    else if c == '\U{212A}' then 'k'
    else c
  }

  /** The per-character test of String.regionMatches(ignoreCase = true):
      equal, or equal in upper case, or equal in the lower case of the upper
      case. */
  predicate CharEqualsIgnoreCase(c1: char, c2: char)
  {
    c1 == c2 || ToUpperCase(c1) == ToUpperCase(c2)
    || ToLowerCase(ToUpperCase(c1)) == ToLowerCase(ToUpperCase(c2))
  }

  /** String.equalsIgnoreCase: same length and every position equal ignoring
      case. */
  predicate EqualsIgnoreCase(a: string, b: string)
  {
    |a| == |b| && forall i :: 0 <= i < |a| ==> CharEqualsIgnoreCase(a[i], b[i])
  }
}
