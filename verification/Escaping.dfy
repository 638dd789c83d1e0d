/**
 Escaping of filter values (RFC 4515 section 3) and its inverse, together with the value
 language of the grammar. The character class of each mode is the one python-ldap applies.
 */
module Escaping {
  import opened Text

  datatype EscapeMode = Special | Restricted | Everything

  function HexDigit(n: nat): (c: char)
    requires n < 16
    ensures IsHex(c) && HexValue(c) == n && !('A' <= c <= 'F')
  {
    if n < 10 then '0' + (n as char) else 'a' + ((n - 10) as char)
  }

  function HexValue(c: char): (n: nat)
    requires IsHex(c)
    ensures n < 16
  {
    if IsDigit(c) then (c - '0') as nat
    else if c >= 'a' then (c - 'a') as nat + 10
    else (c - 'A') as nat + 10
  }

  /** Python's "%02x": at least two digits, more when the code point needs them. */
  function Hex(n: nat): (s: string)
    ensures |s| >= 2 && forall c <- s :: IsHex(c) && !('A' <= c <= 'F')
    ensures |s| == 2 <==> n < 256
    ensures n < 256 ==> 16 * HexValue(s[0]) + HexValue(s[1]) == n
  {
    if n < 256 then [HexDigit(n / 16), HexDigit(n % 16)] else Hex(n / 16) + [HexDigit(n % 16)]
  }

  /** The characters that mean something to the grammar, apart from the backslash. */
  predicate Delimiter(c: char) {
    c == '(' || c == ')' || c == '*' || c == '\0'
  }

  predicate Kept(c: char, mode: EscapeMode) {
    match mode
    case Special => !Delimiter(c) && c != '\\'
    case Restricted => '0' <= c <= 'z' && !Delimiter(c) && c != '\\'
    case Everything => false
  }

  function EscapeChar(c: char, mode: EscapeMode): string {
    if Kept(c, mode) then [c] else ['\\'] + Hex(c as nat)
  }

  function Escape(v: string, mode: EscapeMode): string {
    if v == "" then "" else EscapeChar(v[0], mode) + Escape(v[1..], mode)
  }

  lemma {:induction false} KeepsWhatIsKept(v: string, mode: EscapeMode)
    ensures |Escape(v, mode)| >= |v|
    ensures Escape(v, mode) == v <==> forall c <- v :: Kept(c, mode)
  {
    hide Kept;
    if v != "" {
      KeepsWhatIsKept(v[1..], mode);
      assert v == [v[0]] + v[1..];
      assert forall c :: c in v <==> c == v[0] || c in v[1..];
      FirstKept(v, mode);
    }
  }

  /** Which texts each mode leaves alone. */
  lemma EscapeKeeps(v: string)
    ensures Escape(v, Special) == v <==> forall c <- v :: c != '(' && c != ')' && c != '*' && c != '\\' && c != '\0'
    ensures Escape(v, Restricted) == v <==> forall c <- v :: '0' <= c <= 'z' && c != '\\'
    ensures Escape(v, Everything) == v <==> v == ""
  {
    KeepsWhatIsKept(v, Special);
    KeepsWhatIsKept(v, Restricted);
    KeepsWhatIsKept(v, Everything);
    if v != "" {
      assert v[0] in v;
    }
  }

  lemma FirstKept(v: string, mode: EscapeMode)
    requires v != "" && |Escape(v[1..], mode)| >= |v[1..]|
    ensures Escape(v, mode) == v <==> Kept(v[0], mode) && Escape(v[1..], mode) == v[1..]
  {
    hide Kept, Hex;
    var rest := Escape(v[1..], mode);
    if Kept(v[0], mode) {
      assert ([v[0]] + rest)[1..] == rest;
    } else {
      assert |Escape(v, mode)| > |v|;
    }
  }

  /** Escaping goes character by character: as it is, or a backslash and its code in lower-case hexadecimal digits. */
  lemma {:induction false} EscapeConcat(a: string, b: string, mode: EscapeMode)
    ensures Escape(a + b, mode) == Escape(a, mode) + Escape(b, mode)
    ensures forall c :: Escape([c], mode) == [c] || Escape([c], mode) == ['\\'] + Hex(c as nat)
  {
    hide EscapeChar;
    forall c ensures Escape([c], mode) == EscapeChar(c, mode) {
      assert [c][1..] == "";
      assert EscapeChar(c, mode) + "" == EscapeChar(c, mode);
    }
    CharEscapes(mode);
    if a == "" {
      assert a + b == b;
    } else {
      assert (a + b)[1..] == a[1..] + b;
      EscapeConcat(a[1..], b, mode);
    }
  }

  lemma CharEscapes(mode: EscapeMode)
    ensures forall c :: EscapeChar(c, mode) == [c] || EscapeChar(c, mode) == ['\\'] + Hex(c as nat)
  {
  }

  predicate StartsEscape(s: string) {
    |s| >= 3 && s[0] == '\\' && IsHex(s[1]) && IsHex(s[2])
  }

  /** One escaped byte decoded on its own as UTF-8, with the replacement character on failure. */
  function DecodeByte(hi: char, lo: char): char
    requires IsHex(hi) && IsHex(lo)
  {
    var b := 16 * HexValue(hi) + HexValue(lo);
    if b < 128 then b as char else '\U{FFFD}'
  }

  function Unescape(s: string): (r: string)
    ensures |r| <= |s|
  {
    if s == "" then ""
    else if StartsEscape(s) then [DecodeByte(s[1], s[2])] + Unescape(s[3..])
    else [s[0]] + Unescape(s[1..])
  }

  /** Length of the value atom at the front of s: a plain character, \HH or \\HH; 0 if there is none. */
  function AtomLength(s: string): (n: nat)
    ensures n <= |s|
  {
    if s == "" || Delimiter(s[0]) then 0
    else if s[0] != '\\' then 1
    else if StartsEscape(s) then 3
    else if |s| >= 4 && s[1] == '\\' && IsHex(s[2]) && IsHex(s[3]) then 4
    else 0
  }

  /** The language of the grammar's _value, with the empty text added. */
  predicate IsValueText(s: string) {
    s == "" || (AtomLength(s) > 0 && IsValueText(s[AtomLength(s)..]))
  }

  predicate HexDigits(s: string) {
    forall c <- s :: '0' <= c <= '9' || 'a' <= c <= 'f' || 'A' <= c <= 'F'
  }

  /** What the grammar's expression for values repeats: a plain character, or one or two backslashes and a code. */
  predicate Atom(p: string) {
    || (|p| == 1 && p[0] != '\0' && p[0] != '(' && p[0] != ')' && p[0] != '*' && p[0] != '\\')
    || (|p| == 3 && p[0] == '\\' && HexDigits(p[1..]))
    || (|p| == 4 && p[0] == p[1] == '\\' && HexDigits(p[2..]))
  }

  function Glued(parts: seq<string>): string {
    if parts == [] then "" else parts[0] + Glued(parts[1..])
  }

  /** Reading values from left to right, without looking back, accepts what that expression matches. */
  lemma ValueLanguage(s: string)
    ensures IsValueText(s) <==> exists parts :: (forall p <- parts :: Atom(p)) && Glued(parts) == s
  {
    if IsValueText(s) {
      var parts := AtomsOf(s);
    }
    if parts :| (forall p <- parts :: Atom(p)) && Glued(parts) == s {
      AtomsAreValue(parts);
    }
  }

  lemma {:induction false} AtomsOf(s: string) returns (parts: seq<string>)
    requires IsValueText(s)
    ensures (forall p <- parts :: Atom(p)) && Glued(parts) == s
  {
    if s == "" {
      parts := [];
    } else {
      var n := AtomLength(s);
      var rest := AtomsOf(s[n..]);
      parts := [s[..n]] + rest;
      AtomAtFront(s);
      assert parts[1..] == rest && s == s[..n] + s[n..];
    }
  }

  lemma AtomAtFront(s: string)
    requires AtomLength(s) > 0
    ensures Atom(s[..AtomLength(s)])
  {
    var p := s[..AtomLength(s)];
    assert |p| == 3 ==> p[1..] == [s[1], s[2]];
    assert |p| == 4 ==> p[2..] == [s[2], s[3]];
  }

  lemma AtomReads(p: string, rest: string)
    requires Atom(p)
    ensures AtomLength(p + rest) == |p|
  {
    var s := p + rest;
    assert forall i :: 0 <= i < |p| ==> s[i] == p[i];
    if |p| == 3 {
      assert p[1] == p[1..][0] && p[2] == p[1..][1];
      assert p[1] in p[1..] && p[2] in p[1..];
    } else if |p| == 4 {
      assert p[2] == p[2..][0] && p[3] == p[2..][1];
      assert p[2] in p[2..] && p[3] in p[2..];
    }
  }

  lemma {:induction false} AtomsAreValue(parts: seq<string>)
    requires forall p <- parts :: Atom(p)
    ensures IsValueText(Glued(parts))
  {
    if parts != [] {
      assert parts[0] in parts;
      AtomsAreValue(parts[1..]);
      AtomReads(parts[0], Glued(parts[1..]));
      assert (parts[0] + Glued(parts[1..]))[|parts[0]|..] == Glued(parts[1..]);
    }
  }

  /** A value never contains a character that ends the comparison or makes it a substring match. */
  lemma {:induction false} ValueHasNoDelimiter(s: string)
    requires IsValueText(s)
    ensures forall c <- s :: !Delimiter(c)
  {
    if s != "" {
      var n := AtomLength(s);
      ValueHasNoDelimiter(s[n..]);
      assert s == s[..n] + s[n..];
    }
  }

  lemma AtomPrefix(a: string, b: string)
    requires AtomLength(a) > 0
    ensures AtomLength(a + b) == AtomLength(a)
  {
    assert forall i :: 0 <= i < |a| ==> (a + b)[i] == a[i];
  }

  lemma {:induction false} ValueConcat(a: string, b: string)
    requires IsValueText(a) && IsValueText(b)
    ensures IsValueText(a + b)
  {
    if a == "" {
      assert a + b == b;
    } else {
      var n := AtomLength(a);
      ValueConcat(a[n..], b);
      AtomPrefix(a, b);
      assert (a + b)[n..] == a[n..] + b;
    }
  }

  lemma {:induction false} PlainIsValue(s: string)
    requires forall c <- s :: !Delimiter(c) && c != '\\'
    ensures IsValueText(s)
  {
    if s != "" {
      assert s[0] in s;
      PlainIsValue(s[1..]);
    }
  }

  /** Whatever the mode, an escaped text lies in the value language. */
  lemma {:induction false} EscapeIsValue(v: string, mode: EscapeMode)
    ensures IsValueText(Escape(v, mode))
  {
    if v != "" {
      EscapeIsValue(v[1..], mode);
      var e := EscapeChar(v[0], mode);
      if !Kept(v[0], mode) {
        assert forall c <- e[3..] :: c in Hex(v[0] as nat);
        PlainIsValue(e[3..]);
        assert e[1] in Hex(v[0] as nat) && e[2] in Hex(v[0] as nat);
      }
      assert IsValueText(e);
      ValueConcat(e, Escape(v[1..], mode));
    }
  }

  lemma {:induction false} UnescapePlain(s: string, rest: string)
    requires '\\' !in s
    ensures Unescape(s + rest) == s + Unescape(rest)
  {
    if s == "" {
      assert s + rest == rest;
    } else {
      assert (s + rest)[1..] == s[1..] + rest;
      UnescapePlain(s[1..], rest);
    }
  }

  /** What unescaping makes of one escaped character. */
  function Reread(c: char, mode: EscapeMode): (r: string)
    ensures |r| >= 1
    ensures r == [c] <==> Kept(c, mode) || c < '\U{80}'
  {
    if Kept(c, mode) then [c]
    else
      var h := Hex(c as nat);
      var d := DecodeByte(h[0], h[1]);
      assert c < '\U{80}' <==> c as nat < 128;
      assert c as nat < 128 ==> d == c && h[2..] == "";
      assert 128 <= c as nat < 256 ==> d == '\U{FFFD}' && d != c;
      assert c as nat >= 256 ==> |h[2..]| > 0;
      assert ([d] + h[2..])[0] == d;
      [d] + h[2..]
  }

  lemma KeptIsPlain(c: char, mode: EscapeMode)
    requires Kept(c, mode)
    ensures c != '\\'
  {
  }

  lemma NoBackslash(h: string)
    requires |h| >= 2 && forall x <- h :: IsHex(x)
    ensures '\\' !in h && '\\' !in h[2..]
  {
    assert forall x <- h[2..] :: x in h;
  }

  lemma UnescapeOne(c: char, mode: EscapeMode, rest: string)
    ensures Unescape(EscapeChar(c, mode) + rest) == Reread(c, mode) + Unescape(rest)
  {
    hide Hex, DecodeByte, IsHex, HexValue, Delimiter;
    var e := EscapeChar(c, mode);
    if Kept(c, mode) {
      assert (e + rest)[1..] == rest;
      KeptIsPlain(c, mode);
    } else {
      var h := Hex(c as nat);
      NoBackslash(h);
      UnescapePlain(h[2..], rest);
      assert (e + rest)[3..] == h[2..] + rest;
      assert (e + rest)[1] == h[0] && (e + rest)[2] == h[1];
      assert h[0] in h && h[1] in h;
      assert StartsEscape(e + rest);
    }
  }

  /** Unescaping recovers a text exactly when every character the mode escapes is ASCII. */
  predicate Recoverable(v: string, mode: EscapeMode) {
    forall c <- v :: Kept(c, mode) || c < '\U{80}'
  }

  lemma {:induction false} UnescapeNotShorter(v: string, mode: EscapeMode)
    ensures |Unescape(Escape(v, mode))| >= |v|
  {
    if v != "" {
      UnescapeOne(v[0], mode, Escape(v[1..], mode));
      UnescapeNotShorter(v[1..], mode);
    }
  }

  lemma {:induction false} UnescapeEscape(v: string, mode: EscapeMode)
    ensures Unescape(Escape(v, mode)) == v <==> Recoverable(v, mode)
  {
    if v != "" {
      var tail := v[1..];
      UnescapeOne(v[0], mode, Escape(tail, mode));
      UnescapeEscape(tail, mode);
      UnescapeNotShorter(tail, mode);
      var head, u := Reread(v[0], mode), Unescape(Escape(tail, mode));
      assert v == [v[0]] + tail;
      if head + u == v {
        assert |head| == 1 && (head + u)[0] == head[0] && (head + u)[1..] == u;
      }
    }
  }

  /** SPECIAL mode is invertible on every string, the two other modes on the ASCII strings only. */
  lemma EscapeRoundTrip(v: string)
    ensures Unescape(Escape(v, Special)) == v
    ensures Unescape(Escape(v, Restricted)) == v <==> IsAscii(v)
    ensures Unescape(Escape(v, Everything)) == v <==> IsAscii(v)
  {
    UnescapeEscape(v, Special);
    UnescapeEscape(v, Restricted);
    UnescapeEscape(v, Everything);
  }

  /** The escaping a comparison applies to a decoded value: stricter when stripping would change it. */
  function EscapeValue(v: string): string {
    if Stripped(v) then Escape(v, Special) else Escape(v, Restricted)
  }

  lemma EscapeValueRoundTrip(v: string)
    ensures Unescape(EscapeValue(v)) == v <==> Stripped(v) || IsAscii(v)
  {
    EscapeRoundTrip(v);
  }

  lemma {:induction false} EscapeEnds(v: string, mode: EscapeMode)
    requires v != ""
    ensures var e, last := Escape(v, mode), EscapeChar(v[|v| - 1], mode);
            e != "" && e[0] == EscapeChar(v[0], mode)[0] && e[|e| - 1] == last[|last| - 1]
  {
    if |v| > 1 {
      EscapeEnds(v[1..], mode);
    } else {
      assert v[1..] == "";
      assert Escape(v, mode) == EscapeChar(v[0], mode);
    }
  }

  lemma EscapeCharVisible(c: char, mode: EscapeMode)
    requires mode == Special ==> !IsSpace(c)
    ensures EscapeChar(c, mode) != "" && TightEnds(IsSpace, EscapeChar(c, mode))
  {
    var e := EscapeChar(c, mode);
    assert !Kept(c, mode) ==> IsHex(e[|e| - 1]) by {
      if !Kept(c, mode) {
        var h := Hex(c as nat);
        assert h[|h| - 1] in h && e[|e| - 1] == h[|h| - 1];
      }
    }
  }

  /** The escaped form starts and ends with a visible character, so no parser trims it. */
  lemma EscapeValueTight(v: string)
    ensures Stripped(EscapeValue(v))
  {
    hide IsSpace, Unescape, EscapeChar, StripBy;
    StripEnds(IsSpace, v);
    if v != "" {
      var mode := if Stripped(v) then Special else Restricted;
      EscapeEnds(v, mode);
      EscapeCharVisible(v[0], mode);
      EscapeCharVisible(v[|v| - 1], mode);
    }
    StripEnds(IsSpace, EscapeValue(v));
  }
}
