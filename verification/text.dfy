/** The JavaScript string operations the components rely on: `trim`, ASCII
    `toLowerCase`/`toUpperCase`, `includes`, `startsWith`, `split` on one
    character and `join`. Strings are sequences of characters; a JavaScript
    string's UTF-16 code units are taken to be characters. */
module Text {

  /** The characters `String.prototype.trim` and the regular-expression class
      `\s` treat as white space: the ECMAScript WhiteSpace and LineTerminator
      code points (ASCII white space, the Unicode space separators, the line
      and paragraph separators and the byte order mark). */
  predicate IsSpace(c: char) {
    if c <= ' ' then c == ' ' || ('\t' <= c <= '\r')
    else c == '\U{A0}' || c == '\U{FEFF}' || ('\U{1680}' <= c <= '\U{3000}' && IsSpaceSeparator(c))
  }

  /** The space separators and line terminators between U+1680 and U+3000. */
  predicate IsSpaceSeparator(c: char) {
    c == '\U{1680}' || ('\U{2000}' <= c <= '\U{200A}') || c == '\U{2028}' || c == '\U{2029}' ||
    c == '\U{202F}' || c == '\U{205F}' || c == '\U{3000}'
  }

  predicate AllSpace(s: string) {
    forall i :: 0 <= i < |s| ==> IsSpace(s[i])
  }

  /** Leading white space removed: the result is a suffix of `s`, everything
      dropped is white space, and the result does not start with white space. */
  function TrimStart(s: string): (r: string)
    ensures |r| <= |s| && r == s[|s| - |r|..]
    ensures forall i :: 0 <= i < |s| - |r| ==> IsSpace(s[i])
    ensures |r| > 0 ==> !IsSpace(r[0])
  {
    if |s| > 0 && IsSpace(s[0]) then TrimStart(s[1..]) else s
  }

  /** Trailing white space removed: the result is a prefix of `s`, everything
      dropped is white space, and the result does not end with white space. */
  function TrimEnd(s: string): (r: string)
    ensures |r| <= |s| && r == s[..|r|]
    ensures forall i :: |r| <= i < |s| ==> IsSpace(s[i])
    ensures |r| > 0 ==> !IsSpace(r[|r| - 1])
  {
    if |s| > 0 && IsSpace(s[|s| - 1]) then TrimEnd(s[..|s| - 1]) else s
  }

  /** `s.trim()`. */
  function Trim(s: string): string {
    TrimEnd(TrimStart(s))
  }

  /** `!s.trim()` in JavaScript: the trimmed string is empty exactly when every
      character is white space. */
  lemma TrimEmptyIffAllSpace(s: string)
    ensures Trim(s) == "" <==> AllSpace(s)
  {
    var t := TrimStart(s);
    if AllSpace(s) {
      assert t == "";
    } else {
      var k :| 0 <= k < |s| && !IsSpace(s[k]);
      assert k >= |s| - |t|;
      var j := k - (|s| - |t|);
      assert t[j] == s[k];
      assert !IsSpace(t[j]);
    }
  }

  /** A string that does not start with white space is its own `TrimStart`. */
  lemma TrimStartFixed(s: string)
    requires |s| == 0 || !IsSpace(s[0])
    ensures TrimStart(s) == s
  {
  }

  /** A string that does not end with white space is its own `TrimEnd`. */
  lemma TrimEndFixed(s: string)
    requires |s| == 0 || !IsSpace(s[|s| - 1])
    ensures TrimEnd(s) == s
  {
  }

  /** Trimming a trimmed string changes nothing. */
  lemma TrimIdempotent(s: string)
    ensures Trim(Trim(s)) == Trim(s)
  {
    var t := TrimStart(s);
    var r := TrimEnd(t);
    if |r| > 0 {
      assert r[0] == t[0];
    }
    TrimStartFixed(r);
    TrimEndFixed(r);
  }

  predicate IsUpperAscii(c: char) {
    'A' <= c <= 'Z'
  }

  predicate IsLowerAscii(c: char) {
    'a' <= c <= 'z'
  }

  function LowerChar(c: char): char {
    if IsUpperAscii(c) then (c as int + 32) as char else c
  }

  function UpperChar(c: char): char {
    if IsLowerAscii(c) then (c as int - 32) as char else c
  }

  /** `s.toLowerCase()`, restricted to the ASCII letters. */
  function Lower(s: string): (r: string)
    ensures |r| == |s|
    ensures forall i :: 0 <= i < |s| ==> r[i] == LowerChar(s[i])
  {
    seq(|s|, i requires 0 <= i < |s| => LowerChar(s[i]))
  }

  /** Lower-casing is idempotent and leaves no upper-case ASCII letter. */
  lemma LowerIdempotent(s: string)
    ensures Lower(Lower(s)) == Lower(s)
    ensures forall i :: 0 <= i < |s| ==> !IsUpperAscii(Lower(s)[i])
  {
  }

  /** `s.startsWith(p)`. */
  predicate StartsWith(s: string, p: string) {
    |p| <= |s| && s[..|p|] == p
  }

  /** `n` occurs in `h` starting at position `i`. */
  predicate OccursAt(h: string, n: string, i: int) {
    0 <= i <= |h| - |n| && h[i..i + |n|] == n
  }

  /** `h.includes(n)`, computed by trying every start position. */
  predicate Includes(h: string, n: string)
    decreases |h|
  {
    StartsWith(h, n) || (|h| > 0 && Includes(h[1..], n))
  }

  /** `Includes` holds exactly when the needle occurs at some position. */
  lemma {:induction false} IncludesIffOccurs(h: string, n: string)
    ensures Includes(h, n) <==> exists i :: OccursAt(h, n, i)
  {
    if Includes(h, n) {
      if StartsWith(h, n) {
        assert OccursAt(h, n, 0);
      } else {
        IncludesIffOccurs(h[1..], n);
        var j :| OccursAt(h[1..], n, j);
        assert h[1..][j..j + |n|] == h[j + 1..j + 1 + |n|];
        assert OccursAt(h, n, j + 1);
      }
    }
    if exists i :: OccursAt(h, n, i) {
      var i :| OccursAt(h, n, i);
      if i == 0 {
        assert StartsWith(h, n);
      } else {
        assert h[1..][i - 1..i - 1 + |n|] == h[i..i + |n|];
        assert OccursAt(h[1..], n, i - 1);
        IncludesIffOccurs(h[1..], n);
      }
    }
  }

  /** Every string includes the empty string. */
  lemma IncludesEmpty(h: string)
    ensures Includes(h, "")
  {
  }

  /** `s.split(sep)` for a one-character separator: always at least one part,
      and no part contains the separator. */
  function Split(s: string, sep: char): (parts: seq<string>)
    ensures |parts| >= 1
    ensures forall k :: 0 <= k < |parts| ==> sep !in parts[k]
    decreases |s|
  {
    if |s| == 0 then [""]
    else if s[0] == sep then [""] + Split(s[1..], sep)
    else
      var rest := Split(s[1..], sep);
      [[s[0]] + rest[0]] + rest[1..]
  }

  /** `parts.join(sep)` for a one-character separator. */
  function Join(parts: seq<string>, sep: char): string
  {
    if |parts| == 0 then ""
    else if |parts| == 1 then parts[0]
    else parts[0] + [sep] + Join(parts[1..], sep)
  }

  /** Splitting and joining on the same character gives back the string. */
  lemma {:induction false} JoinSplit(s: string, sep: char)
    ensures Join(Split(s, sep), sep) == s
    decreases |s|
  {
    if |s| > 0 {
      var rest := Split(s[1..], sep);
      JoinSplit(s[1..], sep);
      if s[0] != sep {
        if |rest| > 1 {
          assert [[s[0]] + rest[0]] + rest[1..] == [[s[0]] + rest[0]] + rest[1..];
          assert ([[s[0]] + rest[0]] + rest[1..])[1..] == rest[1..];
        }
      } else {
        assert ([""] + rest)[1..] == rest;
      }
    }
  }

  /** Joining parts free of the separator and splitting again gives back the parts. */
  lemma {:induction false} SplitJoin(parts: seq<string>, sep: char)
    requires |parts| >= 1
    requires forall k :: 0 <= k < |parts| ==> sep !in parts[k]
    ensures Split(Join(parts, sep), sep) == parts
    decreases |Join(parts, sep)|
  {
    if |parts| == 1 {
      SplitNoSeparator(parts[0], sep);
    } else if |parts[0]| == 0 {
      var tail := Join(parts[1..], sep);
      assert Join(parts, sep) == [sep] + tail;
      assert ([sep] + tail)[1..] == tail;
      SplitJoin(parts[1..], sep);
      assert [""] + parts[1..] == parts;
    } else {
      var w := parts[0];
      var shorter := [w[1..]] + parts[1..];
      assert forall k :: 0 <= k < |shorter| ==> sep !in shorter[k] by {
        forall k | 0 <= k < |shorter|
          ensures sep !in shorter[k]
        {
          if k == 0 {
            assert forall c :: c in w[1..] ==> c in w;
          } else {
            assert shorter[k] == parts[k];
          }
        }
      }
      var joined := Join(parts, sep);
      assert joined == [w[0]] + Join(shorter, sep);
      SplitJoin(shorter, sep);
      assert shorter[1..] == parts[1..];
      assert joined[0] == w[0] && w[0] != sep;
      assert joined[1..] == Join(shorter, sep);
      var rest := Split(Join(shorter, sep), sep);
      assert [w[0]] + w[1..] == w;
      assert [[w[0]] + rest[0]] + rest[1..] == parts;
    }
  }

  /** A string without the separator splits into itself alone. */
  lemma {:induction false} SplitNoSeparator(s: string, sep: char)
    requires sep !in s
    ensures Split(s, sep) == [s]
    decreases |s|
  {
    if |s| > 0 {
      assert sep !in s[1..] by {
        assert forall c :: c in s[1..] ==> c in s;
      }
      SplitNoSeparator(s[1..], sep);
      assert [s[0]] + s[1..] == s;
    }
  }

  /** The first part of a split is the text before the first separator: a
      prefix of `s` without the separator, followed by the separator unless it
      is all of `s`. */
  lemma {:induction false} SplitFirstPart(s: string, sep: char)
    ensures var first := Split(s, sep)[0];
            |first| <= |s| && s[..|first|] == first && sep !in first &&
            (|first| < |s| ==> s[|first|] == sep)
    decreases |s|
  {
    if |s| > 0 && s[0] != sep {
      SplitFirstPart(s[1..], sep);
    }
  }

  /** Number of occurrences of `c` in `s`. */
  function Occurrences(s: string, c: char): nat
  {
    if |s| == 0 then 0 else (if s[0] == c then 1 else 0) + Occurrences(s[1..], c)
  }

  /** `split` yields one more part than there are separators. */
  lemma {:induction false} SplitPartCount(s: string, sep: char)
    ensures |Split(s, sep)| == Occurrences(s, sep) + 1
    decreases |s|
  {
    if |s| > 0 {
      SplitPartCount(s[1..], sep);
    }
  }
}
