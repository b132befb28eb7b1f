/** The string operations the player applies to playlist lines: Python's str.strip(),
    str.startswith() and str.replace(pattern, ""). */
module Text {

  /** The directive that opens a channel record in an extended M3U playlist. */
  const ExtInf: string := "#EXTINF:"

  /** The code points Python's str.isspace() accepts; str.strip() with no argument removes them. */
  predicate IsSpace(c: char) {
    c == ' ' || ('\t' <= c <= '\r') || ('\U{1c}' <= c <= '\U{1f}')
    || c == '\U{85}' || c == '\U{a0}' || c == '\U{1680}'
    || ('\U{2000}' <= c <= '\U{200a}') || c == '\U{2028}' || c == '\U{2029}'
    || c == '\U{202f}' || c == '\U{205f}' || c == '\U{3000}'
  }

  predicate AllSpace(s: string) {
    forall k :: 0 <= k < |s| ==> IsSpace(s[k])
  }

  /** A string with no white space at either end, as str.strip() leaves it. */
  predicate Stripped(s: string) {
    s == [] || (!IsSpace(s[0]) && !IsSpace(s[|s| - 1]))
  }

  /** str.lstrip(). */
  function TrimLeft(s: string): (r: string)
    ensures |r| <= |s|
  {
    if s != [] && IsSpace(s[0]) then TrimLeft(s[1..]) else s
  }

  /** str.rstrip(). */
  function TrimRight(s: string): (r: string)
    ensures |r| <= |s|
  {
    if s != [] && IsSpace(s[|s| - 1]) then TrimRight(s[..|s| - 1]) else s
  }

  /** str.strip(). */
  function Trim(s: string): (r: string)
    ensures |r| <= |s|
  {
    TrimRight(TrimLeft(s))
  }

  /** str.lstrip() drops leading white space only, and all of it. */
  lemma {:induction false} TrimLeftSuffix(s: string)
    ensures |TrimLeft(s)| <= |s| && TrimLeft(s) == s[|s| - |TrimLeft(s)|..]
    ensures AllSpace(s[..|s| - |TrimLeft(s)|])
    ensures TrimLeft(s) == [] || !IsSpace(TrimLeft(s)[0])
  {
    if s != [] && IsSpace(s[0]) {
      var t := s[1..];
      TrimLeftSuffix(t);
      var r := TrimLeft(t);
      assert r == s[|s| - |r|..];
      assert s[..|s| - |r|] == [s[0]] + t[..|t| - |r|];
    }
  }

  /** str.rstrip() drops trailing white space only, and all of it. */
  lemma {:induction false} TrimRightPrefix(s: string)
    ensures |TrimRight(s)| <= |s| && TrimRight(s) == s[..|TrimRight(s)|]
    ensures AllSpace(s[|TrimRight(s)|..])
    ensures TrimRight(s) == [] || !IsSpace(TrimRight(s)[|TrimRight(s)| - 1])
  {
    if s != [] && IsSpace(s[|s| - 1]) {
      var t := s[..|s| - 1];
      TrimRightPrefix(t);
      var r := TrimRight(t);
      assert r == s[..|r|];
      assert s[|r|..] == t[|r|..] + [s[|s| - 1]];
    }
  }

  /** str.strip() leaves no white space at either end. */
  lemma TrimStripped(s: string)
    ensures Stripped(Trim(s))
  {
    var l := TrimLeft(s);
    TrimLeftSuffix(s);
    TrimRightPrefix(l);
  }

  /** What str.strip() keeps is an infix of its argument, with only white space around it. */
  lemma TrimInfix(s: string) returns (a: nat)
    ensures a + |Trim(s)| <= |s| && s[a..a + |Trim(s)|] == Trim(s)
    ensures AllSpace(s[..a]) && AllSpace(s[a + |Trim(s)|..])
  {
    var l := TrimLeft(s);
    var r := TrimRight(l);
    TrimLeftSuffix(s);
    TrimRightPrefix(l);
    a := |s| - |l|;
    assert s[a..a + |r|] == r;
    assert s[a + |r|..] == l[|r|..];
  }

  lemma {:induction false} TrimLeftPadded(p: string, u: string)
    requires AllSpace(p)
    requires u == [] || !IsSpace(u[0])
    ensures TrimLeft(p + u) == u
  {
    if p != [] {
      assert (p + u)[1..] == p[1..] + u;
      TrimLeftPadded(p[1..], u);
    }
  }

  lemma {:induction false} TrimRightPadded(u: string, q: string)
    requires AllSpace(q)
    requires u == [] || !IsSpace(u[|u| - 1])
    ensures TrimRight(u + q) == u
  {
    if q != [] {
      assert (u + q)[..|u + q| - 1] == u + q[..|q| - 1];
      TrimRightPadded(u, q[..|q| - 1]);
    }
  }

  /** Trim characterised without reference to how it is computed: whatever white space
      surrounds a stripped string, stripping gives that string back. */
  lemma TrimPadded(p: string, t: string, q: string)
    requires AllSpace(p) && AllSpace(q) && Stripped(t)
    ensures Trim(p + t + q) == t
  {
    if t == [] {
      assert p + t + q == p + q;
      TrimLeftPadded(p + q, []);
      assert p + q + [] == p + q;
    } else {
      assert p + t + q == p + (t + q);
      TrimLeftPadded(p, t + q);
      TrimRightPadded(t, q);
    }
  }

  /** Stripping twice is stripping once. */
  lemma TrimIdempotent(s: string)
    ensures Trim(Trim(s)) == Trim(s)
  {
    var t := Trim(s);
    TrimStripped(s);
    assert [] + t + [] == t;
    TrimPadded([], t, []);
  }

  /** str.startswith(). */
  predicate StartsWith(s: string, prefix: string) {
    |prefix| <= |s| && s[..|prefix|] == prefix
  }

  /** A line that opens a channel record: line.startswith("#EXTINF:"), spelt out character
      by character (see IsExtInfStartsWith). */
  predicate IsExtInf(line: string) {
    |line| >= 8 && line[0] == '#' && line[1] == 'E' && line[2] == 'X' && line[3] == 'T'
    && line[4] == 'I' && line[5] == 'N' && line[6] == 'F' && line[7] == ':'
  }

  lemma IsExtInfStartsWith(line: string)
    ensures IsExtInf(line) <==> StartsWith(line, ExtInf)
  {
    if IsExtInf(line) {
      assert line[..|ExtInf|] == ExtInf;
    }
  }

  /** `pat` occurs in `s` starting at position i. */
  predicate OccursAt(s: string, pat: string, i: int) {
    0 <= i && i + |pat| <= |s| && s[i..i + |pat|] == pat
  }

  /** s.replace(pat, ""): every occurrence of `pat` found scanning left to right without
      overlap is removed. */
  function RemoveAll(s: string, pat: string): (r: string)
    requires pat != []
    ensures |r| <= |s|
    ensures (forall i :: !OccursAt(s, pat, i)) ==> r == s
    decreases |s|
  {
    if |s| < |pat| then s
    else if s[..|pat|] == pat then
      assert OccursAt(s, pat, 0);
      RemoveAll(s[|pat|..], pat)
    else
      assert forall i :: OccursAt(s[1..], pat, i) ==> OccursAt(s, pat, i + 1) by {
        forall i | OccursAt(s[1..], pat, i) ensures OccursAt(s, pat, i + 1) {
          assert s[1..][i..i + |pat|] == s[i + 1..i + 1 + |pat|];
        }
      }
      [s[0]] + RemoveAll(s[1..], pat)
  }

  /** An occurrence in the tail is an occurrence one place further on in the whole. */
  lemma ShiftOccurs(s: string, pat: string, j: nat)
    requires s != []
    ensures OccursAt(s[1..], pat, j) <==> OccursAt(s, pat, j + 1)
  {
    if j + |pat| <= |s| - 1 {
      assert s[1..][j..j + |pat|] == s[j + 1..j + 1 + |pat|];
    }
  }

  /** The leftmost occurrence of `pat` is removed, the text before it is kept, and the
      removal goes on after it, so occurrences never overlap. */
  lemma {:induction false} RemoveAllFirst(s: string, pat: string, i: nat)
    requires pat != []
    requires OccursAt(s, pat, i)
    requires forall j :: 0 <= j < i ==> !OccursAt(s, pat, j)
    ensures RemoveAll(s, pat) == s[..i] + RemoveAll(s[i + |pat|..], pat)
  {
    var r := RemoveAll(s[i + |pat|..], pat);
    if i == 0 {
      RemoveAllHead(s, pat);
      assert s[..0] + r == r;
    } else {
      var t := s[1..];
      ShiftFirst(s, pat, i);
      RemoveAllSkip(s, pat);
      RemoveAllFirst(t, pat, i - 1);
      Regroup(s, i, |pat|, r);
      calc {
        RemoveAll(s, pat);
        [s[0]] + RemoveAll(t, pat);
        [s[0]] + (t[..i - 1] + RemoveAll(t[i - 1 + |pat|..], pat));
        s[..i] + r;
      }
    }
  }

  /** The leftmost occurrence at i > 0 is the leftmost occurrence at i - 1 in the tail. */
  lemma ShiftFirst(s: string, pat: string, i: nat)
    requires 0 < i && OccursAt(s, pat, i)
    requires forall j :: 0 <= j < i ==> !OccursAt(s, pat, j)
    ensures |pat| <= |s| && !OccursAt(s, pat, 0)
    ensures OccursAt(s[1..], pat, i - 1)
    ensures forall j :: 0 <= j < i - 1 ==> !OccursAt(s[1..], pat, j)
  {
    ShiftOccurs(s, pat, i - 1);
    forall j | 0 <= j < i - 1 ensures !OccursAt(s[1..], pat, j) {
      ShiftOccurs(s, pat, j);
    }
  }

  /** Splitting off the first character commutes with cutting at position i. */
  lemma Regroup(s: string, i: nat, m: nat, r: string)
    requires 0 < i && i + m <= |s|
    ensures [s[0]] + (s[1..][..i - 1] + r) == s[..i] + r
    ensures s[1..][i - 1 + m..] == s[i + m..]
  {
    assert [s[0]] + s[1..][..i - 1] == s[..i];
  }

  /** An occurrence at the front is dropped. */
  lemma RemoveAllHead(s: string, pat: string)
    requires pat != [] && OccursAt(s, pat, 0)
    ensures RemoveAll(s, pat) == RemoveAll(s[|pat|..], pat)
  {
    assert s[..|pat|] == pat;
  }

  /** A first character that does not start an occurrence is kept. */
  lemma RemoveAllSkip(s: string, pat: string)
    requires pat != [] && |pat| <= |s| && !OccursAt(s, pat, 0)
    ensures RemoveAll(s, pat) == [s[0]] + RemoveAll(s[1..], pat)
  {
    assert s[..|pat|] != pat;
  }
}
