/** The PHP string built-ins the validation rules of the core rely on, stated
    over Dafny strings (sequences of Unicode scalar values, standing for the
    UTF-8 text PHP sees as bytes):
    - `trim()` with its default character list " \t\n\r\0\x0B";
    - `strtolower()`, which since PHP 8.2 changes ASCII A-Z only;
    - `strlen()`, which counts UTF-8 bytes, not characters;
    - `empty()` on a string, which is true for "" and also for "0". */
module PhpText {

  /** A character `trim()` removes from either end by default. */
  predicate IsTrimChar(c: char) {
    c == ' ' || c == '\t' || c == '\n' || c == '\r' || c == '\0' || c == '\U{000B}'
  }

  /** `ltrim()`: the longest suffix of `s` that does not start with a trim character. */
  function TrimLeft(s: string): (r: string)
    ensures |r| <= |s| && r == s[|s| - |r|..]
    ensures forall i :: 0 <= i < |s| - |r| ==> IsTrimChar(s[i])
    ensures r == [] || !IsTrimChar(r[0])
  {
    if |s| > 0 && IsTrimChar(s[0]) then TrimLeft(s[1..]) else s
  }

  /** `rtrim()`: the longest prefix of `s` that does not end with a trim character. */
  function TrimRight(s: string): (r: string)
    ensures |r| <= |s| && r == s[..|r|]
    ensures forall i :: |r| <= i < |s| ==> IsTrimChar(s[i])
    ensures r == [] || !IsTrimChar(r[|r| - 1])
  {
    if |s| > 0 && IsTrimChar(s[|s| - 1]) then TrimRight(s[..|s| - 1]) else s
  }

  /** `r` is `s` with the `a` characters before it and everything after it
      removed, all of which are trim characters. */
  predicate TrimmedAt(s: string, r: string, a: int) {
    && 0 <= a <= |s| - |r| && r == s[a..a + |r|]
    && (forall i :: 0 <= i < a ==> IsTrimChar(s[i]))
    && (forall i :: a + |r| <= i < |s| ==> IsTrimChar(s[i]))
  }

  /** `trim()`: strips trim characters from both ends. */
  function Trim(s: string): (r: string)
    ensures |r| <= |s|
    ensures r == [] || (!IsTrimChar(r[0]) && !IsTrimChar(r[|r| - 1]))
    ensures r == [] <==> forall i :: 0 <= i < |s| ==> IsTrimChar(s[i])
    ensures exists a :: TrimmedAt(s, r, a)
  {
    var l := TrimLeft(s);
    var r := TrimRight(l);
    assert r != [] ==> r[0] == l[0];
    MiddleOfSuffix(s, l, r);
    r
  }

  /** A suffix of `s` after trim characters, cut before more trim characters,
      is a middle of `s` in the sense of `TrimmedAt`. */
  lemma MiddleOfSuffix(s: string, l: string, r: string)
    requires |l| <= |s| && l == s[|s| - |l|..]
    requires forall i :: 0 <= i < |s| - |l| ==> IsTrimChar(s[i])
    requires |r| <= |l| && r == l[..|r|]
    requires forall i :: |r| <= i < |l| ==> IsTrimChar(l[i])
    ensures TrimmedAt(s, r, |s| - |l|)
  {
    var a := |s| - |l|;
    assert forall i :: 0 <= i < |l| ==> l[i] == s[a + i];
    assert r == s[a..a + |r|];
    forall i | a + |r| <= i < |s|
      ensures IsTrimChar(s[i])
    {
      assert s[i] == l[i - a];
    }
  }

  /** The per-byte case mapping of `strtolower()`: ASCII upper case only. */
  function LowerChar(c: char): char {
    if 'A' <= c <= 'Z' then (c as int + 32) as char else c
  }

  predicate IsUpper(c: char) {
    'A' <= c <= 'Z'
  }

  function ToLower(s: string): (r: string)
    ensures |r| == |s|
    ensures forall i :: 0 <= i < |s| ==> r[i] == LowerChar(s[i])
  {
    seq(|s|, i requires 0 <= i < |s| => LowerChar(s[i]))
  }

  /** `strtolower(trim(s))`, the normal form of slugs and contact e-mails. */
  function Normalise(s: string): string {
    ToLower(Trim(s))
  }

  /** PHP's `empty()` applied to a string. */
  predicate IsEmpty(s: string) {
    s == "" || s == "0"
  }

  /** The number of bytes `c` takes in UTF-8. */
  function Utf8Width(c: char): nat {
    if c as int < 0x80 then 1
    else if c as int < 0x800 then 2
    else if c as int < 0x10000 then 3
    else 4
  }

  /** `strlen()` of the UTF-8 encoding of `s`. */
  function ByteLength(s: string): (n: nat)
    ensures |s| <= n <= 4 * |s|
  {
    if s == [] then 0 else Utf8Width(s[0]) + ByteLength(s[1..])
  }

  predicate IsAscii(s: string) {
    forall i :: 0 <= i < |s| ==> s[i] as int < 0x80
  }

  lemma {:induction false} AsciiByteLength(s: string)
    requires IsAscii(s)
    ensures ByteLength(s) == |s|
  {
    if s != [] {
      assert IsAscii(s[1..]) by {
        forall i | 0 <= i < |s[1..]| ensures s[1..][i] as int < 0x80 {
          assert s[1..][i] == s[i + 1];
        }
      }
      AsciiByteLength(s[1..]);
    }
  }

  /** The outcome of the three-step text rule the entities share: not blank
      after trimming, then a minimum and a maximum byte length of the raw text. */
  datatype TextCheck = Acceptable | Blank | TooShort | TooLong

  function CheckText(s: string, minBytes: nat, maxBytes: nat): (r: TextCheck)
    ensures r == Acceptable <==> !IsEmpty(Trim(s)) && minBytes <= ByteLength(s) <= maxBytes
    ensures r == Blank <==> IsEmpty(Trim(s))
    ensures r == TooShort <==> !IsEmpty(Trim(s)) && ByteLength(s) < minBytes
  {
    if IsEmpty(Trim(s)) then Blank
    else if ByteLength(s) < minBytes then TooShort
    else if ByteLength(s) > maxBytes then TooLong
    else Acceptable
  }

  /** A string with no trim character at either end is its own trim. */
  lemma TrimFixedPoint(s: string)
    requires s == [] || (!IsTrimChar(s[0]) && !IsTrimChar(s[|s| - 1]))
    ensures Trim(s) == s
  {
  }

  lemma ToLowerIdempotent(s: string)
    ensures ToLower(ToLower(s)) == ToLower(s)
  {
  }

  /** Normalising twice is normalising once: `strtolower` never creates a trim
      character at either end, and never creates an upper-case letter. */
  lemma NormaliseIdempotent(s: string)
    ensures Normalise(Normalise(s)) == Normalise(s)
  {
    var t := Trim(s);
    LowerKeepsEnds(t);
    TrimFixedPoint(ToLower(t));
    ToLowerIdempotent(t);
  }

  /** Lower-casing turns no character into a trim character. */
  lemma LowerKeepsEnds(t: string)
    requires t == [] || (!IsTrimChar(t[0]) && !IsTrimChar(t[|t| - 1]))
    ensures var n := ToLower(t); n == [] || (!IsTrimChar(n[0]) && !IsTrimChar(n[|n| - 1]))
  {
  }

  /** A normalised string has no ASCII upper-case letter. */
  lemma NormalisedIsLower(s: string)
    ensures forall i :: 0 <= i < |Normalise(s)| ==> !IsUpper(Normalise(s)[i])
  {
  }
}
