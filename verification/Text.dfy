/** Character classes and the few string operations of Python that the filter code relies on. */
module Text {

  /** What str.strip() removes. */
  predicate IsSpace(c: char) {
    '\t' <= c <= '\r' || '\U{1C}' <= c <= ' ' || c == '\U{85}' || c == '\U{A0}' || c == '\U{1680}' ||
    '\U{2000}' <= c <= '\U{200A}' || c == '\U{2028}' || c == '\U{2029}' || c == '\U{202F}' ||
    c == '\U{205F}' || c == '\U{3000}'
  }

  /** The grammar's own notion of whitespace, the terminal WS: narrower than IsSpace. */
  predicate IsWs(c: char) {
    c in " \t\r\n" || c == '\U{C}'
  }

  /** Both classes by code point. */
  lemma WhitespaceCodes(c: char)
    ensures IsWs(c) <==> c as int in {9, 10, 12, 13, 32}
    ensures IsSpace(c) <==>
              || c as int in {133, 160, 5760, 8232, 8233, 8239, 8287, 12288}
              || 9 <= c as int <= 13 || 28 <= c as int <= 32 || 8192 <= c as int <= 8202
  {
  }

  predicate IsDigit(c: char) { '0' <= c <= '9' }

  predicate IsLetter(c: char) { 'a' <= c <= 'z' || 'A' <= c <= 'Z' }

  predicate IsHex(c: char) { IsDigit(c) || 'a' <= c <= 'f' || 'A' <= c <= 'F' }

  predicate IsAscii(s: string) { forall c <- s :: c < '\U{80}' }

  predicate All(p: char -> bool, s: string) { forall c <- s :: p(c) }

  predicate AllWs(s: string) { All(IsWs, s) }

  /** Number of leading characters of s in class p. */
  function Lead(p: char -> bool, s: string): (n: nat)
    ensures n <= |s|
    ensures forall i :: 0 <= i < n ==> p(s[i])
    ensures n < |s| ==> !p(s[n])
  {
    if s == "" || !p(s[0]) then 0 else 1 + Lead(p, s[1..])
  }

  /** Index at which the trailing run of characters in class p starts. */
  function Trail(p: char -> bool, s: string): (n: nat)
    ensures n <= |s|
    ensures forall i :: n <= i < |s| ==> p(s[i])
    ensures n > 0 ==> !p(s[n - 1])
  {
    if s == "" || !p(s[|s| - 1]) then |s| else Trail(p, s[..|s| - 1])
  }

  function StripBy(p: char -> bool, s: string): (r: string)
    ensures |r| <= |s|
  {
    var a, b := Lead(p, s), Trail(p, s);
    if a == |s| then "" else s[a..b]
  }

  /** str.strip. */
  function Strip(s: string): string { StripBy(IsSpace, s) }

  predicate Stripped(s: string) { s == Strip(s) }

  predicate TightEnds(p: char -> bool, s: string) {
    s == "" || (!p(s[0]) && !p(s[|s| - 1]))
  }

  lemma StripEnds(p: char -> bool, s: string)
    ensures s == StripBy(p, s) <==> TightEnds(p, s)
    ensures TightEnds(p, StripBy(p, s))
  {
    if s != "" {
      var a, b := Lead(p, s), Trail(p, s);
      if s == StripBy(p, s) {
        assert a < |s|;
        assert |s[a..b]| == |s|;
      }
    }
  }

  /** The run lengths are determined by where the first and the last other character stand. */
  lemma LeadIs(p: char -> bool, a: string, b: string)
    requires All(p, a)
    requires b == "" || !p(b[0])
    ensures Lead(p, a + b) == |a|
  {
    assert forall i :: 0 <= i < |a| ==> (a + b)[i] in a;
    assert b != "" ==> (a + b)[|a|] == b[0];
  }

  lemma TrailIs(p: char -> bool, a: string, b: string)
    requires All(p, b)
    requires a == "" || !p(a[|a| - 1])
    ensures Trail(p, a + b) == |a|
  {
    assert forall i :: |a| <= i < |a + b| ==> (a + b)[i] in b;
    assert a != "" ==> (a + b)[|a| - 1] == a[|a| - 1];
  }

  /** The leading run of characters in class p, and the rest. */
  function Cut(p: char -> bool, s: string): (r: (string, string))
    ensures r.0 + r.1 == s && All(p, r.0) && (r.1 == "" || !p(r.1[0]))
    ensures |r.0| + |r.1| == |s|
  {
    var n := Lead(p, s);
    (s[..n], s[n..])
  }

  /** What precedes the trailing run of characters in class p, and that run. */
  function CutEnd(p: char -> bool, s: string): (r: (string, string))
    ensures r.0 + r.1 == s && (r.0 == "" || !p(r.0[|r.0| - 1])) && All(p, r.1)
    ensures |r.0| + |r.1| == |s|
  {
    var n := Trail(p, s);
    (s[..n], s[n..])
  }

  lemma CutIs(p: char -> bool, a: string, b: string)
    requires All(p, a)
    requires b == "" || !p(b[0])
    ensures Cut(p, a + b) == (a, b)
  {
    LeadIs(p, a, b);
  }

  lemma CutEndIs(p: char -> bool, a: string, b: string)
    requires a == "" || !p(a[|a| - 1])
    requires All(p, b)
    ensures CutEnd(p, a + b) == (a, b)
  {
    TrailIs(p, a, b);
  }

  predicate Starts(s: string, prefix: string) { |prefix| <= |s| && s[..|prefix|] == prefix }

  /** str.removeprefix, where the prefix is there. */
  function After(s: string, prefix: string): (r: string)
    requires Starts(s, prefix)
    ensures prefix + r == s && |r| == |s| - |prefix|
  {
    s[|prefix|..]
  }

  lemma StartsIs(a: string, b: string)
    ensures Starts(a + b, a) && After(a + b, a) == b
  {
  }

  lemma Assoc(a: string, b: string, c: string)
    ensures (a + b) + c == a + (b + c)
  {
  }

  /** str.partition: before, separator, after; the empty separator is Python's ValueError. */
  function Partition(s: string, sep: string): (r: (string, string, string))
    requires sep != ""
    ensures r.0 + r.1 + r.2 == s
  {
    var i := Find(s, sep);
    if i == |s| then (s, "", "") else (s[..i], sep, s[i + |sep|..])
  }

  predicate OccursAt(s: string, sep: string, i: int) {
    0 <= i <= i + |sep| <= |s| && s[i..i + |sep|] == sep
  }

  /** First position at which sep occurs, or |s|. */
  function Find(s: string, sep: string): (i: nat)
    requires sep != ""
    ensures i <= |s|
    ensures i < |s| ==> OccursAt(s, sep, i)
    ensures forall j :: 0 <= j < i ==> !OccursAt(s, sep, j)
  {
    if |s| < |sep| then |s|
    else if s[..|sep|] == sep then 0
    else
      var k := Find(s[1..], sep);
      assert forall j :: 0 < j && OccursAt(s, sep, j) ==> OccursAt(s[1..], sep, j - 1) by {
        forall j | 0 < j && OccursAt(s, sep, j) ensures OccursAt(s[1..], sep, j - 1) {
          assert s[1..][j - 1..j - 1 + |sep|] == s[j..j + |sep|];
        }
      }
      assert k < |s[1..]| ==> s[1..][k..k + |sep|] == s[k + 1..k + 1 + |sep|];
      k + 1
  }

  /** Partitioning at the stripped text separates exactly the leading and the trailing run. */
  lemma PartitionAtStrip(p: char -> bool, s: string)
    requires StripBy(p, s) != ""
    ensures var r := Partition(s, StripBy(p, s));
            && r.1 == StripBy(p, s) && All(p, r.0) && All(p, r.2)
            && (r.0 != "" <==> p(s[0])) && (r.2 != "" <==> p(s[|s| - 1]))
  {
    var a, b := Lead(p, s), Trail(p, s);
    var m := StripBy(p, s);
    assert m == s[a..b];
    StripEnds(p, s);
    var i := Find(s, m);
    assert OccursAt(s, m, a);
    assert i <= a && s[i] == m[0];
    assert i == a && s[i + |m|..] == s[b..] && s[b - 1] == m[|m| - 1];
  }
}
