/** JavaScript string semantics that the request handlers rely on:
    optional request-body fields and their truthiness, the `\s` class of
    JavaScript regular expressions, and `String.prototype.length`, which
    counts UTF-16 code units rather than characters. Dafny's `char` is a
    Unicode scalar value, so every character outside the Basic
    Multilingual Plane counts twice. */
module JsText {

  datatype Option<+T> = None | Some(value: T)

  /** A field of a JSON request body: absent, or present as a string. */
  type Field = Option<string>

  /** `!!field` in JavaScript: undefined and the empty string are falsy. */
  predicate Truthy(f: Field)
    ensures Truthy(f) <==> f.Some? && |f.value| > 0
  {
    f.Some? && f.value != ""
  }

  /** The characters matched by `\s` in a JavaScript regular expression:
      the WhiteSpace and LineTerminator code points of ECMA-262. */
  predicate IsSpace(c: char) {
    || c == '\t' || c == '\n' || c == '\U{B}' || c == '\U{C}' || c == '\r'
    || c == ' ' || c == '\U{A0}' || c == '\U{1680}'
    || ('\U{2000}' <= c <= '\U{200A}')
    || c == '\U{2028}' || c == '\U{2029}' || c == '\U{202F}' || c == '\U{205F}'
    || c == '\U{3000}' || c == '\U{FEFF}'
  }

  /** Every character of `s` is matched by `\S`. */
  predicate NoSpace(s: string) {
    forall k :: 0 <= k < |s| ==> !IsSpace(s[k])
  }

  /** Number of UTF-16 code units `c` occupies. */
  function CodeUnits(c: char): (n: nat)
    ensures n == 1 || n == 2
    ensures n == 2 <==> c as int >= 0x1_0000
  {
    if c as int < 0x1_0000 then 1 else 2
  }

  /** `s.length` in JavaScript: at least the number of characters and at
      most twice it. */
  function Utf16Length(s: string): (n: nat)
    ensures |s| <= n <= 2 * |s|
  {
    if s == [] then 0 else CodeUnits(s[0]) + Utf16Length(s[1..])
  }

  /** The JavaScript length equals the number of characters exactly when no
      character lies outside the Basic Multilingual Plane. */
  lemma {:induction false} Utf16LengthInBmp(s: string)
    ensures Utf16Length(s) == |s| <==> forall k :: 0 <= k < |s| ==> s[k] as int < 0x1_0000
  {
    if s != [] {
      Utf16LengthInBmp(s[1..]);
      if Utf16Length(s) == |s| {
        forall k | 0 <= k < |s| ensures s[k] as int < 0x1_0000 {
          if k > 0 { assert s[k] == s[1..][k - 1]; }
        }
      }
      if forall k :: 0 <= k < |s| ==> s[k] as int < 0x1_0000 {
        forall k | 0 <= k < |s[1..]| ensures s[1..][k] as int < 0x1_0000 {
          assert s[1..][k] == s[k + 1];
        }
      }
    }
  }
}
