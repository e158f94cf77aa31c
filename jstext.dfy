/** The JavaScript string operations the application relies on:
    `trim`, ASCII-folded `toLowerCase`/`toUpperCase`, `includes`,
    `split(',')` with its inverse `join(',')`, and the relational operators
    on strings. */
module JsText {

  // ---------------------------------------------------------------------
  // trim
  // ---------------------------------------------------------------------

  /** The characters `String.prototype.trim` removes: ECMAScript's
      WhiteSpace (TAB, VT, FF, SPACE, NBSP, ZWNBSP and the Zs category)
      and LineTerminator (LF, CR, LS, PS) code points. */
  predicate IsSpace(c: char) {
    || c == '\U{0009}' || c == '\U{000B}' || c == '\U{000C}' || c == ' '
    || c == '\U{00A0}' || c == '\U{FEFF}' || c == '\U{1680}'
    || ('\U{2000}' <= c <= '\U{200A}')
    || c == '\U{202F}' || c == '\U{205F}' || c == '\U{3000}'
    || c == '\n' || c == '\r' || c == '\U{2028}' || c == '\U{2029}'
  }

  ghost predicate AllSpace(s: string) {
    forall i :: 0 <= i < |s| ==> IsSpace(s[i])
  }

  /** The length of the longest all-space prefix. */
  function LeadingSpaces(s: string): (n: nat)
    ensures n <= |s|
    ensures forall i :: 0 <= i < n ==> IsSpace(s[i])
    ensures n == |s| || !IsSpace(s[n])
    decreases |s|
  {
    if |s| > 0 && IsSpace(s[0]) then 1 + LeadingSpaces(s[1..]) else 0
  }

  /** The length of the longest all-space suffix. */
  function TrailingSpaces(s: string): (n: nat)
    ensures n <= |s|
    ensures forall i :: |s| - n <= i < |s| ==> IsSpace(s[i])
    ensures n == |s| || !IsSpace(s[|s| - n - 1])
    decreases |s|
  {
    if |s| > 0 && IsSpace(s[|s| - 1]) then 1 + TrailingSpaces(s[..|s| - 1]) else 0
  }

  /** `s.trimStart()`. */
  function TrimStart(s: string): string {
    s[LeadingSpaces(s)..]
  }

  /** `s.trimEnd()`. */
  function TrimEnd(s: string): string {
    s[..|s| - TrailingSpaces(s)]
  }

  /** `s.trim()`: the string without its leading and trailing white space. */
  function Trim(s: string): string {
    TrimEnd(TrimStart(s))
  }

  /** What is left after trimming is empty exactly for an all-space
      string, and otherwise starts and ends with a non-space. */
  lemma TrimShape(s: string)
    ensures |Trim(s)| <= |s|
    ensures Trim(s) == [] <==> AllSpace(s)
    ensures Trim(s) == [] || (!IsSpace(Trim(s)[0]) && !IsSpace(Trim(s)[|Trim(s)| - 1]))
  {
    var t := TrimStart(s);
    assert |t| == 0 ==> AllSpace(s);
    assert |t| > 0 ==> t[0] == s[LeadingSpaces(s)];
  }

  /** Trimming never adds a character. */
  lemma TrimKeepsOut(s: string, c: char)
    requires c !in s
    ensures c !in Trim(s)
  {
    var w1, w2 := TrimSplitsOff(s);
  }

  /** A string `s` is `w1 + Trim(s) + w2` for some white space `w1`, `w2`. */
  lemma TrimSplitsOff(s: string) returns (w1: string, w2: string)
    ensures AllSpace(w1) && AllSpace(w2)
    ensures s == w1 + Trim(s) + w2
  {
    w1 := TrimStartSplitsOff(s);
    w2 := TrimEndSplitsOff(TrimStart(s));
    assert s == w1 + (Trim(s) + w2);
  }

  lemma TrimStartSplitsOff(s: string) returns (w: string)
    ensures AllSpace(w)
    ensures s == w + TrimStart(s)
  {
    var a := LeadingSpaces(s);
    w := s[..a];
    forall i | 0 <= i < |w| ensures IsSpace(w[i]) {
      assert w[i] == s[i];
    }
    assert s == s[..a] + s[a..];
  }

  lemma TrimEndSplitsOff(t: string) returns (w: string)
    ensures AllSpace(w)
    ensures t == TrimEnd(t) + w
  {
    var b := TrailingSpaces(t);
    w := t[|t| - b..];
    forall i | 0 <= i < |w| ensures IsSpace(w[i]) {
      assert w[i] == t[|t| - b + i];
    }
    assert t == t[..|t| - b] + t[|t| - b..];
  }

  /** Trim's answer is the unique middle part with white space around it
      and none at its own ends. */
  lemma TrimUnique(w1: string, m: string, w2: string)
    requires AllSpace(w1) && AllSpace(w2)
    requires m == [] || (!IsSpace(m[0]) && !IsSpace(m[|m| - 1]))
    ensures Trim(w1 + m + w2) == m
  {
    var s := w1 + m + w2;
    if m == [] {
      assert s == w1 + w2;
      assert AllSpace(s) by {
        forall i | 0 <= i < |s| ensures IsSpace(s[i]) {
          if i < |w1| { assert s[i] == w1[i]; } else { assert s[i] == w2[i - |w1|]; }
        }
      }
    } else {
      var a := LeadingSpaces(s);
      assert s[|w1|] == m[0];
      assert forall i :: 0 <= i < |w1| ==> s[i] == w1[i];
      assert a == |w1|;
      var t := s[a..];
      assert t == m + w2;
      var b := TrailingSpaces(t);
      assert t[|m| - 1] == m[|m| - 1];
      assert forall i :: |m| <= i < |t| ==> t[i] == w2[i - |m|];
      assert b == |w2|;
      assert t[..|t| - b] == m;
    }
  }

  /** White space around a string never changes what it trims to. */
  lemma TrimIgnoresPadding(w1: string, p: string, w2: string)
    requires AllSpace(w1) && AllSpace(w2)
    ensures Trim(w1 + p + w2) == Trim(p)
  {
    var u1, u2 := TrimSplitsOff(p);
    var m := Trim(p);
    Regroup(w1, u1, m, u2, w2);
    AllSpaceConcat(w1, u1);
    AllSpaceConcat(u2, w2);
    TrimUnique(w1 + u1, m, u2 + w2);
  }

  lemma Regroup<T>(w1: seq<T>, u1: seq<T>, m: seq<T>, u2: seq<T>, w2: seq<T>)
    ensures w1 + (u1 + m + u2) + w2 == (w1 + u1) + m + (u2 + w2)
  {
  }

  lemma AllSpaceConcat(a: string, b: string)
    requires AllSpace(a) && AllSpace(b)
    ensures AllSpace(a + b)
  {
    forall i | 0 <= i < |a + b| ensures IsSpace((a + b)[i]) {
      if i < |a| { assert (a + b)[i] == a[i]; } else { assert (a + b)[i] == b[i - |a|]; }
    }
  }

  /** Trimming twice is trimming once. */
  lemma TrimIdempotent(s: string)
    ensures Trim(Trim(s)) == Trim(s)
  {
    var m := Trim(s);
    assert [] + m + [] == m;
    TrimUnique([], m, []);
  }

  // ---------------------------------------------------------------------
  // Case folding (ASCII letters only)
  // ---------------------------------------------------------------------

  predicate IsUpper(c: char) { 'A' <= c <= 'Z' }
  predicate IsLower(c: char) { 'a' <= c <= 'z' }
  predicate IsAsciiLetter(c: char) { IsUpper(c) || IsLower(c) }

  function LowerChar(c: char): (d: char)
    ensures !IsUpper(d)
    ensures IsAsciiLetter(c) <==> IsAsciiLetter(d)
  {
    if IsUpper(c) then (c as int + 32) as char else c
  }

  function UpperChar(c: char): (d: char)
    ensures !IsLower(d)
    ensures IsAsciiLetter(c) <==> IsAsciiLetter(d)
  {
    if IsLower(c) then (c as int - 32) as char else c
  }

  /** `s.toLowerCase()`, restricted to ASCII letters. */
  function ToLower(s: string): (r: string)
    ensures |r| == |s|
    ensures forall i :: 0 <= i < |s| ==> r[i] == LowerChar(s[i])
  {
    seq(|s|, i requires 0 <= i < |s| => LowerChar(s[i]))
  }

  /** `s.toUpperCase()`, restricted to ASCII letters. */
  function ToUpper(s: string): (r: string)
    ensures |r| == |s|
    ensures forall i :: 0 <= i < |s| ==> r[i] == UpperChar(s[i])
  {
    seq(|s|, i requires 0 <= i < |s| => UpperChar(s[i]))
  }

  lemma ToLowerIdempotent(s: string)
    ensures ToLower(ToLower(s)) == ToLower(s)
  {
  }

  lemma ToUpperIdempotent(s: string)
    ensures ToUpper(ToUpper(s)) == ToUpper(s)
  {
  }

  lemma LowerUpper(s: string)
    ensures ToLower(ToUpper(s)) == ToLower(s)
  {
  }

  lemma ToUpperAppend(a: string, b: string)
    ensures ToUpper(a + b) == ToUpper(a) + ToUpper(b)
  {
  }

  /** Upper-casing and trimming commute: white space is never a letter. */
  lemma TrimUpper(s: string)
    ensures Trim(ToUpper(s)) == ToUpper(Trim(s))
  {
    var w1, w2 := TrimSplitsOff(s);
    var m := Trim(s);
    ToUpperAppend(w1, m);
    ToUpperAppend(w1 + m, w2);
    UpperKeepsSpace(w1);
    UpperKeepsSpace(w2);
    UpperKeepsEnds(m);
    TrimUnique(w1, ToUpper(m), w2);
  }

  lemma UpperKeepsSpace(w: string)
    requires AllSpace(w)
    ensures ToUpper(w) == w
  {
  }

  lemma UpperKeepsEnds(m: string)
    requires m == [] || (!IsSpace(m[0]) && !IsSpace(m[|m| - 1]))
    ensures ToUpper(m) == [] || (!IsSpace(ToUpper(m)[0]) && !IsSpace(ToUpper(m)[|m| - 1]))
  {
  }

  /** `/[a-zA-Z]+/g` finds a match. */
  predicate HasAsciiLetter(s: string) {
    exists i :: 0 <= i < |s| && IsAsciiLetter(s[i])
  }

  // ---------------------------------------------------------------------
  // includes
  // ---------------------------------------------------------------------

  predicate StartsWith(s: string, prefix: string) {
    |prefix| <= |s| && s[..|prefix|] == prefix
  }

  /** `s.includes(sub)`, searching from the left. */
  predicate Includes(s: string, sub: string)
    decreases |s|
  {
    StartsWith(s, sub) || (|s| > 0 && Includes(s[1..], sub))
  }

  /** `sub` occurs in `s` starting at offset `i`. */
  predicate OccursAt(s: string, sub: string, i: int) {
    0 <= i <= |s| - |sub| && s[i..i + |sub|] == sub
  }

  /** `includes` is substring containment at some offset. */
  lemma {:induction false} IncludesIsSubstring(s: string, sub: string)
    ensures Includes(s, sub) <==> exists i :: OccursAt(s, sub, i)
    decreases |s|
  {
    if StartsWith(s, sub) {
      assert OccursAt(s, sub, 0);
    } else if |s| > 0 {
      IncludesIsSubstring(s[1..], sub);
      if Includes(s[1..], sub) {
        var i :| OccursAt(s[1..], sub, i);
        assert s[1..][i..i + |sub|] == s[i + 1..i + 1 + |sub|];
        assert OccursAt(s, sub, i + 1);
      }
      if exists i :: OccursAt(s, sub, i) {
        var i :| OccursAt(s, sub, i);
        assert i != 0;
        assert s[1..][i - 1..i - 1 + |sub|] == s[i..i + |sub|];
        assert OccursAt(s[1..], sub, i - 1);
      }
    } else {
      assert forall i :: !OccursAt(s, sub, i);
    }
  }

  // ---------------------------------------------------------------------
  // split and join
  // ---------------------------------------------------------------------

  /** `s.split(sep)` for a one-character separator: the pieces between
      separators, empty ones included; the empty string gives `[""]`. */
  function Split(s: string, sep: char): (parts: seq<string>)
    ensures |parts| >= 1
    ensures forall p :: p in parts ==> sep !in p
    decreases |s|
  {
    if s == [] then [""]
    else
      var rest := Split(s[1..], sep);
      if s[0] == sep then [""] + rest
      else [[s[0]] + rest[0]] + rest[1..]
  }

  /** `parts.join(sep)`. */
  function Join(parts: seq<string>, sep: char): string
    decreases |parts|
  {
    if |parts| == 0 then ""
    else if |parts| == 1 then parts[0]
    else parts[0] + [sep] + Join(parts[1..], sep)
  }

  /** Joining the pieces gives back the split string. */
  lemma {:induction false} JoinSplit(s: string, sep: char)
    ensures Join(Split(s, sep), sep) == s
    decreases |s|
  {
    if s != [] {
      var rest := Split(s[1..], sep);
      JoinSplit(s[1..], sep);
      if s[0] == sep {
        assert ([""] + rest)[1..] == rest;
      } else {
        var parts := [[s[0]] + rest[0]] + rest[1..];
        if |rest| == 1 {
          assert parts == [[s[0]] + rest[0]];
        } else {
          assert parts[1..] == rest[1..];
          assert Join(rest, sep) == rest[0] + [sep] + Join(rest[1..], sep);
        }
      }
    }
  }

  lemma {:induction false} SplitPlain(p: string, sep: char, tail: string)
    requires sep !in p
    ensures Split(p + tail, sep) == [p + Split(tail, sep)[0]] + Split(tail, sep)[1..]
    decreases |p|
  {
    var parts := Split(tail, sep);
    if p == [] {
      assert p + tail == tail;
      assert p + parts[0] == parts[0];
      assert parts == [parts[0]] + parts[1..];
    } else {
      assert p[0] in p;
      assert (p + tail)[0] == p[0];
      assert (p + tail)[1..] == p[1..] + tail;
      SplitPlain(p[1..], sep, tail);
      assert [p[0]] + (p[1..] + parts[0]) == p + parts[0];
    }
  }

  /** Splitting joined pieces that contain no separator gives them back. */
  lemma {:induction false} SplitJoin(parts: seq<string>, sep: char)
    requires |parts| >= 1
    requires forall p :: p in parts ==> sep !in p
    ensures Split(Join(parts, sep), sep) == parts
    decreases |parts|
  {
    if |parts| == 1 {
      SplitPlain(parts[0], sep, []);
      assert parts[0] + [] == parts[0];
    } else {
      var rest := Join(parts[1..], sep);
      SplitJoin(parts[1..], sep);
      assert parts[0] in parts;
      assert parts[0] + [sep] + rest == parts[0] + ([sep] + rest);
      SplitPlain(parts[0], sep, [sep] + rest);
      assert ([sep] + rest)[0] == sep;
      assert ([sep] + rest)[1..] == rest;
      assert Split([sep] + rest, sep) == [""] + parts[1..];
      assert parts[0] + "" == parts[0];
      assert parts == [parts[0]] + parts[1..];
    }
  }

  /** Text before the first piece only lengthens the first piece. */
  lemma SplitPrefix(w: string, s: string, sep: char)
    requires sep !in w
    ensures Split(w + s, sep) == [w + Split(s, sep)[0]] + Split(s, sep)[1..]
  {
    SplitPlain(w, sep, s);
  }

  lemma {:induction false} JoinExtendLast(parts: seq<string>, w: string, sep: char)
    requires |parts| >= 1
    ensures Join(parts, sep) + w == Join(parts[..|parts| - 1] + [parts[|parts| - 1] + w], sep)
    decreases |parts|
  {
    var ext := parts[..|parts| - 1] + [parts[|parts| - 1] + w];
    if |parts| == 1 {
      assert ext == [parts[0] + w];
    } else {
      JoinExtendLast(parts[1..], w, sep);
      assert ext[1..] == parts[1..][..|parts| - 2] + [parts[|parts| - 1] + w];
      assert ext[0] == parts[0];
    }
  }

  /** Text after the last separator only lengthens the last piece. */
  lemma SplitSuffix(s: string, w: string, sep: char)
    requires sep !in w
    ensures var parts := Split(s, sep);
      Split(s + w, sep) == parts[..|parts| - 1] + [parts[|parts| - 1] + w]
  {
    var parts := Split(s, sep);
    var ext := parts[..|parts| - 1] + [parts[|parts| - 1] + w];
    JoinSplit(s, sep);
    JoinExtendLast(parts, w, sep);
    forall p | p in ext ensures sep !in p {
      if p != parts[|parts| - 1] + w { assert p in parts; }
      else { assert parts[|parts| - 1] in parts; }
    }
    SplitJoin(ext, sep);
  }

  // ---------------------------------------------------------------------
  // String comparison (`<`, `<=` on strings)
  // ---------------------------------------------------------------------

  /** `a < b` for strings: lexicographic, a proper prefix first. */
  predicate LexLess(a: string, b: string)
    decreases |a|
  {
    |b| > 0 && (|a| == 0 || a[0] < b[0] || (a[0] == b[0] && LexLess(a[1..], b[1..])))
  }

  /** `a <= b` for strings. */
  predicate LexLe(a: string, b: string) {
    !LexLess(b, a)
  }

  lemma {:induction false} LexLessIrreflexive(a: string)
    ensures !LexLess(a, a)
    decreases |a|
  {
    if |a| > 0 { LexLessIrreflexive(a[1..]); }
  }

  lemma {:induction false} LexLessTransitive(a: string, b: string, c: string)
    requires LexLess(a, b) && LexLess(b, c)
    ensures LexLess(a, c)
    decreases |a|
  {
    if |a| > 0 && a[0] == b[0] && b[0] == c[0] {
      LexLessTransitive(a[1..], b[1..], c[1..]);
    }
  }

  lemma {:induction false} LexLessTotal(a: string, b: string)
    ensures a == b || LexLess(a, b) || LexLess(b, a)
    decreases |a|
  {
    if |a| > 0 && |b| > 0 && a[0] == b[0] {
      LexLessTotal(a[1..], b[1..]);
      if a[1..] == b[1..] {
        assert a == [a[0]] + a[1..] && b == [b[0]] + b[1..];
      }
    }
  }

  /** `<=` on strings is a total order. */
  lemma LexLeIsTotalOrder()
    ensures forall a :: LexLe(a, a)
    ensures forall a, b :: LexLe(a, b) && LexLe(b, a) ==> a == b
    ensures forall a, b, c :: LexLe(a, b) && LexLe(b, c) ==> LexLe(a, c)
    ensures forall a, b :: LexLe(a, b) || LexLe(b, a)
  {
    forall a ensures LexLe(a, a) { LexLessIrreflexive(a); }
    forall a, b | LexLe(a, b) && LexLe(b, a) ensures a == b { LexLessTotal(a, b); }
    forall a, b, c | LexLe(a, b) && LexLe(b, c) ensures LexLe(a, c) {
      LexLessTotal(a, b);
      LexLessTotal(b, c);
      if LexLess(c, a) {
        if LexLess(a, b) { LexLessTransitive(c, a, b); }
      }
    }
    forall a, b ensures LexLe(a, b) || LexLe(b, a) {
      if LexLess(a, b) && LexLess(b, a) {
        LexLessTransitive(a, b, a);
        LexLessIrreflexive(a);
      }
    }
  }

  // ---------------------------------------------------------------------
  // Date keys
  // ---------------------------------------------------------------------

  predicate IsDigit(c: char) { '0' <= c <= '9' }

  /** `/^\d{4}-\d{2}-\d{2}$/.test(s)`. */
  predicate IsDateKey(s: string) {
    && |s| == 10
    && IsDigit(s[0]) && IsDigit(s[1]) && IsDigit(s[2]) && IsDigit(s[3])
    && s[4] == '-'
    && IsDigit(s[5]) && IsDigit(s[6])
    && s[7] == '-'
    && IsDigit(s[8]) && IsDigit(s[9])
  }
}
