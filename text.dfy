/**
 * String operations the core relies on: `String.prototype.trim`,
 * `String.prototype.split` with a one-character separator, and
 * `toLowerCase` restricted to ASCII letters.
 */
module Text {
  import opened Wrappers

  /** ECMAScript WhiteSpace and LineTerminator code points, which `trim` strips. */
  predicate IsWhitespace(c: char)
  {
    var n := c as int;
    (0x09 <= n <= 0x0D) || n == 0x20 || n == 0xA0 || n == 0x1680
    || (0x2000 <= n <= 0x200A) || n == 0x2028 || n == 0x2029
    || n == 0x202F || n == 0x205F || n == 0x3000 || n == 0xFEFF
  }

  /** Neither end of `s` is whitespace. */
  predicate IsTrimmed(s: string)
  {
    s == [] || (!IsWhitespace(s[0]) && !IsWhitespace(s[|s| - 1]))
  }

  /** Every character of `s` is whitespace. */
  predicate AllWhitespace(s: string)
  {
    forall i :: 0 <= i < |s| ==> IsWhitespace(s[i])
  }

  /** `s` with its leading whitespace removed (`TrimStartSuffix` says which part it is). */
  function TrimStart(s: string): (r: string)
    ensures |r| <= |s|
    ensures r != [] ==> !IsWhitespace(r[0])
  {
    if s != [] && IsWhitespace(s[0]) then TrimStart(s[1..]) else s
  }

  /** `s` with its trailing whitespace removed (`TrimEndPrefix` says which part it is). */
  function TrimEnd(s: string): (r: string)
    ensures |r| <= |s|
    ensures r != [] ==> !IsWhitespace(r[|r| - 1])
  {
    if s != [] && IsWhitespace(s[|s| - 1]) then TrimEnd(s[..|s| - 1]) else s
  }

  /** What `TrimStart` drops is whitespace, and what it keeps is the rest of `s`. */
  lemma {:induction false} TrimStartSuffix(s: string)
    ensures var r := TrimStart(s);
      r == s[|s| - |r|..] && AllWhitespace(s[..|s| - |r|])
  {
    if s != [] && IsWhitespace(s[0]) {
      TrimStartSuffix(s[1..]);
      var r := TrimStart(s[1..]);
      assert s[..|s| - |r|] == [s[0]] + s[1..][..|s| - 1 - |r|];
    }
  }

  /** What `TrimEnd` drops is whitespace, and what it keeps is the start of `s`. */
  lemma {:induction false} TrimEndPrefix(s: string)
    ensures var r := TrimEnd(s);
      r == s[..|r|] && AllWhitespace(s[|r|..])
  {
    if s != [] && IsWhitespace(s[|s| - 1]) {
      TrimEndPrefix(s[..|s| - 1]);
      var r := TrimEnd(s[..|s| - 1]);
      assert s[|r|..] == s[..|s| - 1][|r|..] + [s[|s| - 1]];
    }
  }

  /** `s.trim()`: no whitespace left at either end (`TrimMiddle` says what is kept). */
  function Trim(s: string): (r: string)
    ensures IsTrimmed(r)
  {
    var t := TrimStart(s);
    var r := TrimEnd(t);
    TrimEndTrimmed(t, r);
    r
  }

  lemma TrimEndTrimmed(t: string, r: string)
    requires r == TrimEnd(t) && (t != [] ==> !IsWhitespace(t[0]))
    ensures IsTrimmed(r)
  {
    TrimEndPrefix(t);
    if r != [] {
      assert r[0] == t[0];
    }
  }

  /** `s` is the whitespace `trim` removes at the front, then `Trim(s)`, then the whitespace it removes at the back. */
  lemma TrimMiddle(s: string)
    ensures var k, r := |s| - |TrimStart(s)|, Trim(s);
      && k + |r| <= |s| && r == s[k..k + |r|]
      && AllWhitespace(s[..k]) && AllWhitespace(s[k + |r|..])
  {
    var t := TrimStart(s);
    var r := TrimEnd(t);
    var k := |s| - |t|;
    TrimStartSuffix(s);
    TrimEndPrefix(t);
    assert s[k + |r|..] == t[|r|..];
  }

  /** `s.trim()` is empty exactly when `s` is all whitespace. */
  lemma TrimEmpty(s: string)
    ensures Trim(s) == [] <==> AllWhitespace(s)
  {
    var t := TrimStart(s);
    TrimStartSuffix(s);
    if t != [] {
      TrimEndPrefix(t);
      assert t[0] == s[|s| - |t|];
      assert t[0..] == t;
    } else {
      assert s[..|s|] == s;
    }
  }

  /** A string with no whitespace at either end is its own trim. */
  lemma TrimIdentity(s: string)
    requires IsTrimmed(s)
    ensures Trim(s) == s
  {
  }

  /** Trimming twice is trimming once. */
  lemma TrimIdempotent(s: string)
    ensures Trim(Trim(s)) == Trim(s)
  {
    TrimIdentity(Trim(s));
  }

  lemma {:induction false} TrimStartPadding(p: string, q: string)
    requires AllWhitespace(p)
    requires q != [] && !IsWhitespace(q[0])
    ensures TrimStart(p + q) == q
  {
    if p == [] {
      assert p + q == q;
    } else {
      assert (p + q)[1..] == p[1..] + q;
      TrimStartPadding(p[1..], q);
    }
  }

  lemma {:induction false} TrimEndPadding(q: string, p: string)
    requires AllWhitespace(p)
    requires q != [] && !IsWhitespace(q[|q| - 1])
    ensures TrimEnd(q + p) == q
  {
    if p == [] {
      assert q + p == q;
    } else {
      assert (q + p)[..|q + p| - 1] == q + p[..|p| - 1];
      TrimEndPadding(q, p[..|p| - 1]);
    }
  }

  /** Whitespace added around a trimmed, non-empty string is exactly what `trim` removes. */
  lemma TrimPadded(p: string, s: string)
    requires AllWhitespace(p)
    requires s != [] && IsTrimmed(s)
    ensures Trim(p + s + p) == s
  {
    assert p + s + p == p + (s + p);
    TrimStartPadding(p, s + p);
    TrimEndPadding(s, p);
  }

  /** `c.toLowerCase()` for ASCII; every other character is left as it is. */
  function LowerChar(c: char): (r: char)
    ensures ('A' <= c <= 'Z') ==> r as int == c as int + 32
    ensures !('A' <= c <= 'Z') ==> r == c
  {
    if 'A' <= c <= 'Z' then (c as int + 32) as char else c
  }

  /** `s.toLowerCase()`, character by character. */
  function Lower(s: string): (r: string)
    ensures |r| == |s|
    ensures forall i :: 0 <= i < |s| ==> r[i] == LowerChar(s[i])
  {
    seq(|s|, i requires 0 <= i < |s| => LowerChar(s[i]))
  }

  /** Lower-casing twice is lower-casing once. */
  lemma LowerIdempotent(s: string)
    ensures Lower(Lower(s)) == Lower(s)
  {
  }

  /** Lower-casing touches no whitespace, so a trimmed string stays trimmed. */
  lemma LowerTrimmed(s: string)
    requires IsTrimmed(s)
    ensures IsTrimmed(Lower(s))
  {
  }

  /** `a.toLowerCase() === b.toLowerCase()`. */
  predicate SameIgnoringCase(a: string, b: string)
  {
    Lower(a) == Lower(b)
  }

  /** `names.findIndex(n => n.toLowerCase() === query.toLowerCase())`, `None` standing for -1. */
  function FindIgnoringCase(names: seq<string>, query: string): (r: Option<nat>)
    ensures r.None? ==> forall j :: 0 <= j < |names| ==> !SameIgnoringCase(names[j], query)
    ensures r.Some? ==> r.value < |names| && SameIgnoringCase(names[r.value], query)
    ensures r.Some? ==> forall j :: 0 <= j < r.value ==> !SameIgnoringCase(names[j], query)
  {
    if names == [] then None
    else if SameIgnoringCase(names[0], query) then Some(0)
    else
      match FindIgnoringCase(names[1..], query)
      case None => None
      case Some(k) => Some(k + 1)
  }

  /** The number of times `c` occurs in `s`. */
  function Occurrences(s: string, c: char): (r: nat)
    ensures r <= |s|
  {
    if s == [] then 0 else (if s[0] == c then 1 else 0) + Occurrences(s[1..], c)
  }

  /** `s.split(c)`: the pieces between the occurrences of `c`, always at least one. */
  function Split(s: string, c: char): (r: seq<string>)
    ensures |r| == Occurrences(s, c) + 1
    ensures forall i :: 0 <= i < |r| ==> c !in r[i]
  {
    if s == [] then [[]]
    else
      var rest := Split(s[1..], c);
      if s[0] == c then [[]] + rest
      else [[s[0]] + rest[0]] + rest[1..]
  }

  /** `parts.join(c)`. */
  function Join(parts: seq<string>, c: char): string
    requires |parts| > 0
  {
    if |parts| == 1 then parts[0] else parts[0] + [c] + Join(parts[1..], c)
  }

  /** Joining the pieces of a split gives the string back. */
  lemma {:induction false} JoinSplit(s: string, c: char)
    ensures Join(Split(s, c), c) == s
  {
    if s != [] {
      var rest := Split(s[1..], c);
      JoinSplit(s[1..], c);
      if s[0] == c {
        assert Split(s, c)[1..] == rest;
      } else {
        var r := Split(s, c);
        assert r[0] == [s[0]] + rest[0];
        if |rest| == 1 {
          assert r == [[s[0]] + rest[0]];
        } else {
          assert r[1..] == rest[1..];
          assert Join(rest, c) == rest[0] + [c] + Join(rest[1..], c);
        }
      }
    }
  }

  /** Splitting a join of pieces free of `c` gives the pieces back. */
  lemma {:induction false} SplitJoin(parts: seq<string>, c: char)
    requires |parts| > 0
    requires forall i :: 0 <= i < |parts| ==> c !in parts[i]
    ensures Split(Join(parts, c), c) == parts
  {
    if |parts| == 1 {
      SplitFree(parts[0], c);
    } else {
      SplitJoin(parts[1..], c);
      SplitPrefix(parts[0], Join(parts[1..], c), c);
      assert parts == [parts[0]] + parts[1..];
    }
  }

  /** Every character of `parts.join(c)` is `c` or a character of one of the parts, and every part's characters are in it. */
  lemma {:induction false} JoinChars(parts: seq<string>, c: char, x: char)
    requires |parts| > 0
    ensures x in Join(parts, c) ==> x == c || exists j :: 0 <= j < |parts| && x in parts[j]
    ensures (exists j :: 0 <= j < |parts| && x in parts[j]) ==> x in Join(parts, c)
  {
    if |parts| > 1 {
      JoinChars(parts[1..], c, x);
      if exists j :: 0 <= j < |parts| && x in parts[j] {
        var j :| 0 <= j < |parts| && x in parts[j];
        if j > 0 {
          assert parts[1..][j - 1] == parts[j];
        }
      }
      if x in Join(parts, c) && x != c && x !in parts[0] {
        assert x in Join(parts[1..], c);
        var j :| 0 <= j < |parts[1..]| && x in parts[1..][j];
        assert parts[j + 1] == parts[1..][j];
      }
    }
  }

  /** A string without `c` splits into itself alone. */
  lemma {:induction false} SplitFree(s: string, c: char)
    requires c !in s
    ensures Split(s, c) == [s]
  {
    if s != [] {
      SplitFree(s[1..], c);
      assert [s[0]] + s[1..] == s;
    }
  }

  /** A piece free of `c` followed by `c` becomes the first piece of the split. */
  lemma {:induction false} SplitPrefix(p: string, rest: string, c: char)
    requires c !in p
    ensures Split(p + [c] + rest, c) == [p] + Split(rest, c)
  {
    if p == [] {
      assert [c] + rest == p + [c] + rest;
      assert ([c] + rest)[1..] == rest;
    } else {
      assert (p + [c] + rest)[1..] == p[1..] + [c] + rest;
      SplitPrefix(p[1..], rest, c);
      assert [p[0]] + p[1..] == p;
    }
  }
}
