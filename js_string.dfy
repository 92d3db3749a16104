/**
  The two JavaScript string operations the task store and the form rely on:
  `String.prototype.trim`, which strips the ECMAScript WhiteSpace and
  LineTerminator code points from both ends, and `.length`, which counts
  UTF-16 code units (a code point above U+FFFF counts twice).
 */
module JsString {

  /** ECMAScript WhiteSpace (TAB, VT, FF, SP, NBSP, ZWNBSP and the Zs category) and LineTerminator (LF, CR, LS, PS). */
  predicate IsWhitespace(c: char)
  {
    c == '\t' || c == '\n' || c == '\U{000B}' || c == '\U{000C}' || c == '\r' || c == ' '
    || c == '\U{00A0}' || c == '\U{1680}' || ('\U{2000}' <= c <= '\U{200A}')
    || c == '\U{2028}' || c == '\U{2029}' || c == '\U{202F}' || c == '\U{205F}'
    || c == '\U{3000}' || c == '\U{FEFF}'
  }

  predicate AllWhitespace(s: string)
  {
    forall k :: 0 <= k < |s| ==> IsWhitespace(s[k])
  }

  /** Skips leading whitespace from index `i`: the index of the first other character at or after `i`, or `|s|`. */
  function SkipLeading(s: string, i: nat): (lo: nat)
    requires i <= |s|
    ensures i <= lo <= |s|
    ensures forall k :: i <= k < lo ==> IsWhitespace(s[k])
    ensures lo < |s| ==> !IsWhitespace(s[lo])
    decreases |s| - i
  {
    if i < |s| && IsWhitespace(s[i]) then SkipLeading(s, i + 1) else i
  }

  /**
    Skips trailing whitespace down from index `j`, never below `lo`: the end
    of the last other character in `s[lo..j]`, or `lo`.
   */
  function SkipTrailing(s: string, lo: nat, j: nat): (hi: nat)
    requires lo <= j <= |s|
    ensures lo <= hi <= j
    ensures forall k :: hi <= k < j ==> IsWhitespace(s[k])
    ensures lo < hi ==> !IsWhitespace(s[hi - 1])
    decreases j
  {
    if lo < j && IsWhitespace(s[j - 1]) then SkipTrailing(s, lo, j - 1) else j
  }

  /**
    `s` is made of whitespace `s[..lo]`, a body `s[lo..hi]` that neither starts
    nor ends with whitespace, and whitespace `s[hi..]`.
   */
  ghost predicate TrimmedAt(s: string, lo: nat, hi: nat)
  {
    lo <= hi <= |s|
    && (forall k :: 0 <= k < lo ==> IsWhitespace(s[k]))
    && (forall k :: hi <= k < |s| ==> IsWhitespace(s[k]))
    && (lo < hi ==> !IsWhitespace(s[lo]) && !IsWhitespace(s[hi - 1]))
  }

  /** `s.trim()`: whitespace is dropped from the start, then from the end. */
  function Trim(s: string): (r: string)
    ensures |r| <= |s|
    ensures r == [] || (!IsWhitespace(r[0]) && !IsWhitespace(r[|r| - 1]))
    ensures r == [] <==> AllWhitespace(s)
  {
    var lo := SkipLeading(s, 0);
    var hi := SkipTrailing(s, lo, |s|);
    assert hi == lo ==> AllWhitespace(s) by {
      if hi == lo {
        forall k | 0 <= k < |s| ensures IsWhitespace(s[k]) {
          if k < lo {
            assert 0 <= k < lo;
          }
        }
      }
    }
    s[lo..hi]
  }

  /** The trimmed string is the body of the one split of `s` that `TrimmedAt` describes. */
  lemma TrimSlice(s: string) returns (lo: nat, hi: nat)
    ensures TrimmedAt(s, lo, hi) && Trim(s) == s[lo..hi]
  {
    lo := SkipLeading(s, 0);
    hi := SkipTrailing(s, lo, |s|);
  }

  /** A split's body is empty exactly when the whole string is whitespace. */
  lemma EmptyBodyIffAllWhitespace(s: string, lo: nat, hi: nat)
    requires TrimmedAt(s, lo, hi)
    ensures lo == hi <==> AllWhitespace(s)
  {
    if lo == hi {
      forall k | 0 <= k < |s| ensures IsWhitespace(s[k]) {
        if k < lo {
          assert 0 <= k < lo;
        }
      }
    } else {
      assert !IsWhitespace(s[lo]);
    }
  }

  /** Any split that `TrimmedAt` describes has the trimmed string as its body. */
  lemma TrimCharacterized(s: string, lo: nat, hi: nat)
    requires TrimmedAt(s, lo, hi)
    ensures Trim(s) == s[lo..hi]
  {
    var lo', hi' := TrimSlice(s);
    EmptyBodyIffAllWhitespace(s, lo, hi);
    EmptyBodyIffAllWhitespace(s, lo', hi');
    if lo < hi {
      if lo < lo' || lo' < lo || hi < hi' || hi' < hi {
        assert false;
      }
    }
  }

  /** Trimming twice is trimming once. */
  lemma TrimIdempotent(s: string)
    ensures Trim(Trim(s)) == Trim(s)
  {
    var t := Trim(s);
    assert t[..0] == [] && t[|t|..] == [];
    TrimCharacterized(t, 0, |t|);
    assert t[0..|t|] == t;
  }

  /** UTF-16 code units of one code point. */
  function CodeUnits(c: char): nat
  {
    if c as int > 0xFFFF then 2 else 1
  }

  /** `s.length`: the number of UTF-16 code units of `s`. */
  function Utf16Length(s: string): (n: nat)
    ensures |s| <= n <= 2 * |s|
  {
    if s == [] then 0 else Utf16Length(s[..|s| - 1]) + CodeUnits(s[|s| - 1])
  }

  lemma {:induction false} Utf16LengthConcat(a: string, b: string)
    ensures Utf16Length(a + b) == Utf16Length(a) + Utf16Length(b)
  {
    if b != [] {
      assert (a + b)[..|a + b| - 1] == a + b[..|b| - 1];
      Utf16LengthConcat(a, b[..|b| - 1]);
    } else {
      assert a + b == a;
    }
  }

  /** Strings whose code points all lie in the Basic Multilingual Plane have one code unit per code point. */
  lemma {:induction false} Utf16LengthBmp(s: string)
    requires forall k :: 0 <= k < |s| ==> s[k] as int <= 0xFFFF
    ensures Utf16Length(s) == |s|
  {
    if s != [] {
      Utf16LengthBmp(s[..|s| - 1]);
    }
  }

  /** Trimming never makes a string longer in code units. */
  lemma TrimUtf16Length(s: string)
    ensures Utf16Length(Trim(s)) <= Utf16Length(s)
  {
    var lo, hi := TrimSlice(s);
    var head, body, tail := s[..lo], s[lo..hi], s[hi..];
    assert s == head + body + tail;
    Utf16LengthConcat(head + body, tail);
    Utf16LengthConcat(head, body);
  }
}
