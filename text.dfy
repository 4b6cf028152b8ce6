/** String sanitising: JavaScript's `String.prototype.trim`, the validator's
    `sanitizeString` and `isValidId`, and the blank-input guards of the actions. */
module Text {
  import opened Wrappers
  import opened Json

  /** The characters `trim` removes: JavaScript's WhiteSpace and LineTerminator. */
  predicate IsJsWhitespace(c: char) {
    || c == ' ' || c == '\t' || c == '\n' || c == '\r'
    || c == '\U{000B}' || c == '\U{000C}' || c == '\U{00A0}' || c == '\U{1680}'
    || ('\U{2000}' <= c <= '\U{200A}')
    || c == '\U{2028}' || c == '\U{2029}' || c == '\U{202F}' || c == '\U{205F}'
    || c == '\U{3000}' || c == '\U{FEFF}'
  }

  /** Leading whitespace removed. */
  function TrimStart(s: string): (r: string)
    ensures |r| <= |s| && r == s[|s| - |r|..]
    ensures forall k :: 0 <= k < |s| - |r| ==> IsJsWhitespace(s[k])
    ensures r == [] || !IsJsWhitespace(r[0])
  {
    if |s| > 0 && IsJsWhitespace(s[0]) then TrimStart(s[1..]) else s
  }

  /** Trailing whitespace removed. */
  function TrimEnd(s: string): (r: string)
    ensures |r| <= |s| && r == s[..|r|]
    ensures forall k :: |r| <= k < |s| ==> IsJsWhitespace(s[k])
    ensures r == [] || !IsJsWhitespace(r[|r| - 1])
  {
    if |s| > 0 && IsJsWhitespace(s[|s| - 1]) then TrimEnd(s[..|s| - 1]) else s
  }

  /** Dropping leading whitespace from `s` (giving `t`) and then trailing
      whitespace from `t` (giving `r`) leaves a slice of `s` with only
      whitespace around it and, if it is not empty, none at its ends. */
  lemma TrimmedSlice(s: string, t: string, r: string)
    requires |t| <= |s| && t == s[|s| - |t|..]
    requires forall k :: 0 <= k < |s| - |t| ==> IsJsWhitespace(s[k])
    requires t == [] || !IsJsWhitespace(t[0])
    requires |r| <= |t| && r == t[..|r|]
    requires forall k :: |r| <= k < |t| ==> IsJsWhitespace(t[k])
    requires r == [] || !IsJsWhitespace(r[|r| - 1])
    ensures var i := |s| - |t|;
      && i + |r| <= |s| && r == s[i..i + |r|]
      && (forall k :: 0 <= k < i ==> IsJsWhitespace(s[k]))
      && (forall k :: i + |r| <= k < |s| ==> IsJsWhitespace(s[k]))
    ensures r == [] || (!IsJsWhitespace(r[0]) && !IsJsWhitespace(r[|r| - 1]))
  {
    var i := |s| - |t|;
    forall k | i + |r| <= k < |s|
      ensures IsJsWhitespace(s[k])
    {
      assert s[k] == t[k - i];
    }
    assert r == [] || r[0] == t[0];
  }

  /** `s.trim()`: the infix of `s` between its leading and trailing whitespace. */
  function Trim(s: string): (r: string)
    ensures var i := |s| - |TrimStart(s)|;
      && i + |r| <= |s| && r == s[i..i + |r|]
      && (forall k :: 0 <= k < i ==> IsJsWhitespace(s[k]))
      && (forall k :: i + |r| <= k < |s| ==> IsJsWhitespace(s[k]))
    ensures r == [] || (!IsJsWhitespace(r[0]) && !IsJsWhitespace(r[|r| - 1]))
  {
    var t := TrimStart(s);
    var r := TrimEnd(t);
    TrimmedSlice(s, t, r);
    r
  }

  /** Trimming a string with no surrounding whitespace changes nothing. */
  lemma TrimTrimmed(s: string)
    requires s == [] || (!IsJsWhitespace(s[0]) && !IsJsWhitespace(s[|s| - 1]))
    ensures Trim(s) == s
  {
  }

  /** `!s.trim()`: nothing but whitespace. */
  predicate IsBlank(s: string) {
    Trim(s) == ""
  }

  /** `!s || !s.trim()`: the guard the actions use to refuse a missing, empty
      or blank name before they issue any update. */
  predicate Refuses(s: Option<string>) {
    !TruthyStr(s) || IsBlank(s.value)
  }

  function Min(a: nat, b: nat): nat {
    if a <= b then a else b
  }

  /** `sanitizeString(v, maxLength)`: a non-string gives `""`; a string gives
      the first `maxLength` characters of its trimmed form. */
  function SanitizeString(v: Json, maxLength: nat): (r: string)
    ensures !v.JStr? ==> r == ""
    ensures v.JStr? ==> r <= Trim(v.s) && |r| == Min(maxLength, |Trim(v.s)|)
    ensures r == [] || !IsJsWhitespace(r[0])
  {
    if v.JStr? then Trim(v.s)[..Min(maxLength, |Trim(v.s)|)] else ""
  }

  /** Trim-then-slice can leave trailing whitespace, so sanitising twice is not
      sanitising once: "a b" capped at 2 gives "a ", which sanitises to "a". */
  lemma SanitizeNotIdempotent()
    ensures SanitizeString(JStr(SanitizeString(JStr("a b"), 2)), 2) != SanitizeString(JStr("a b"), 2)
  {
    var s := "a b";
    assert !IsJsWhitespace(s[0]) && !IsJsWhitespace(s[2]);
    TrimTrimmed(s);
    var once := SanitizeString(JStr(s), 2);
    assert once == s[..2];
    assert IsJsWhitespace(once[1]);
  }

  /** Sanitising a string that is already trimmed and within the cap is the identity. */
  lemma SanitizeFixed(s: string, maxLength: nat)
    requires |s| <= maxLength
    requires s == [] || (!IsJsWhitespace(s[0]) && !IsJsWhitespace(s[|s| - 1]))
    ensures SanitizeString(JStr(s), maxLength) == s
  {
    TrimTrimmed(s);
  }

  /** `isValidId`: a string of 1 to 99 characters. */
  predicate IsValidId(v: Option<Json>) {
    v.Some? && v.value.JStr? && 0 < |v.value.s| < 100
  }
}
