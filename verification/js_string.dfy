/** The three JavaScript string built-ins the path matcher relies on, stated
    over `seq<char>`:
    - `String.prototype.trim` (section 22.1.3.32 of ECMA-262, 15th edition,
      ECMAScript 2024), which removes WhiteSpace and LineTerminator code
      points from both ends;
    - `String.prototype.startsWith` with no position argument;
    - `s.replace(/c$/, "")` for a single literal character `c`: a regular
      expression without the `m` flag, so `$` only matches at the very end and
      at most one character is removed. */
module JsString {

  /** WhiteSpace (section 12.2 of ECMA-262, 15th edition: TAB, VT, FF,
      ZWNBSP and the Unicode category Zs) together with LineTerminator
      (section 12.3: LF, CR, LS, PS). The Zs members are listed explicitly. */
  predicate IsWhitespace(c: char) {
    || c == '\t' || c == '\n' || c == '\U{000B}' || c == '\U{000C}' || c == '\r'
    || c == ' ' || c == '\U{00A0}' || c == '\U{1680}'
    || ('\U{2000}' <= c <= '\U{200A}')
    || c == '\U{2028}' || c == '\U{2029}' || c == '\U{202F}' || c == '\U{205F}'
    || c == '\U{3000}' || c == '\U{FEFF}'
  }

  /** `s[lo..hi]` is what trimming `s` leaves: everything outside the slice is
      whitespace, and the slice, when non-empty, starts and ends with a
      character that is not. This is the reference definition `Trim` meets. */
  ghost predicate TrimmedSlice(s: string, lo: int, hi: int) {
    && 0 <= lo <= hi <= |s|
    && (forall i :: 0 <= i < lo ==> IsWhitespace(s[i]))
    && (forall i :: hi <= i < |s| ==> IsWhitespace(s[i]))
    && (lo < hi ==> !IsWhitespace(s[lo]) && !IsWhitespace(s[hi - 1]))
  }

  /** The first position at or after `i` that does not hold whitespace
      (`|s|` when there is none). */
  function SkipLeading(s: string, i: nat): (k: nat)
    requires i <= |s|
    ensures i <= k <= |s|
    ensures forall m :: i <= m < k ==> IsWhitespace(s[m])
    ensures k < |s| ==> !IsWhitespace(s[k])
    decreases |s| - i
  {
    if i < |s| && IsWhitespace(s[i]) then SkipLeading(s, i + 1) else i
  }

  /** The end of `s[lo..j]` once its trailing whitespace is dropped. */
  function SkipTrailing(s: string, lo: nat, j: nat): (k: nat)
    requires lo <= j <= |s|
    ensures lo <= k <= j
    ensures forall m :: k <= m < j ==> IsWhitespace(s[m])
    ensures lo < k ==> !IsWhitespace(s[k - 1])
  {
    if lo < j && IsWhitespace(s[j - 1]) then SkipTrailing(s, lo, j - 1) else j
  }

  /** `String.prototype.trim`. */
  function Trim(s: string): (r: string)
    ensures |r| <= |s|
    ensures r != [] ==> !IsWhitespace(r[0]) && !IsWhitespace(r[|r| - 1])
    ensures r == [] ==> forall i :: 0 <= i < |s| ==> IsWhitespace(s[i])
  {
    var lo := SkipLeading(s, 0);
    s[lo..SkipTrailing(s, lo, |s|)]
  }

  /** Where the trimmed string sits in `s`: `Trim` meets the reference
      definition `TrimmedSlice`. */
  lemma {:induction false} TrimSlice(s: string) returns (lo: int, hi: int)
    ensures TrimmedSlice(s, lo, hi) && Trim(s) == s[lo..hi]
  {
    lo := SkipLeading(s, 0);
    hi := SkipTrailing(s, lo, |s|);
  }

  /** Any slice meeting the reference definition is the one `Trim` returns:
      trimming is fully determined by `TrimmedSlice`. */
  lemma {:induction false} TrimUnique(s: string, lo: int, hi: int)
    requires TrimmedSlice(s, lo, hi)
    ensures Trim(s) == s[lo..hi]
  {
  }

  /** A string that neither starts nor ends with whitespace is left as is. */
  lemma {:induction false} TrimKeeps(s: string)
    requires s != [] ==> !IsWhitespace(s[0]) && !IsWhitespace(s[|s| - 1])
    ensures Trim(s) == s
  {
  }

  /** A string made only of whitespace trims to the empty string, and only
      such a string does. */
  lemma {:induction false} TrimEmptyIff(s: string)
    ensures Trim(s) == [] <==> forall i :: 0 <= i < |s| ==> IsWhitespace(s[i])
  {
  }

  /** Trimming twice is trimming once. */
  lemma {:induction false} TrimIdempotent(s: string)
    ensures Trim(Trim(s)) == Trim(s)
  {
    TrimKeeps(Trim(s));
  }

  /** Trimming a string that ends in a non-whitespace character keeps that
      character last. */
  lemma {:induction false} TrimKeepsLast(s: string)
    requires s != [] && !IsWhitespace(s[|s| - 1])
    ensures Trim(s) != [] && Trim(s)[|Trim(s)| - 1] == s[|s| - 1]
  {
  }

  /** Appending a non-whitespace character to a string that already ends in
      one appends it to the trimmed string as well. */
  lemma {:induction false} TrimAppend(s: string, c: char)
    requires s != [] && !IsWhitespace(s[|s| - 1])
    requires !IsWhitespace(c)
    ensures Trim(s + [c]) == Trim(s) + [c]
  {
    var lo, hi := TrimSlice(s);
    assert hi == |s| by {
      if hi < |s| {}
    }
    assert lo < hi by {
      if lo == hi {}
    }
    var s' := s + [c];
    forall i | 0 <= i < lo
      ensures IsWhitespace(s'[i])
    {
      assert s'[i] == s[i];
    }
    assert s'[lo] == s[lo];
    assert s'[|s'| - 1] == c;
    assert TrimmedSlice(s', lo, |s'|);
    TrimUnique(s', lo, |s'|);
    assert s'[lo..|s'|] == s[lo..hi] + [c];
  }

  /** `s.startsWith(prefix)`, compared one character at a time. */
  function StartsWith(s: string, prefix: string): (r: bool)
    ensures r <==> |prefix| <= |s| && s[..|prefix|] == prefix
  {
    if prefix == [] then true
    else if s == [] then false
    else s[0] == prefix[0] && StartsWith(s[1..], prefix[1..])
  }

  /** `s.replace(/c$/, "")`: removes `c` when it is the last character, and
      nothing otherwise. */
  function DropTrailing(s: string, c: char): (r: string)
    ensures s == r || s == r + [c]
    ensures s != [] && s[|s| - 1] == c <==> s == r + [c]
  {
    if s != [] && s[|s| - 1] == c then s[..|s| - 1] else s
  }
}
