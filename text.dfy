/**
 * The JavaScript string operations the server applies to request data:
 * `String.prototype.trim`, `toLowerCase` and `includes`.
 */
module Text {

  /** The WhiteSpace and LineTerminator code points of ECMAScript, the ones `trim` strips. */
  predicate IsSpace(c: char) {
    var n := c as int;
    (0x09 <= n <= 0x0D) || n == 0x20 || n == 0xA0 || n == 0x1680 || (0x2000 <= n <= 0x200A)
    || n == 0x2028 || n == 0x2029 || n == 0x202F || n == 0x205F || n == 0x3000 || n == 0xFEFF
  }

  /** The string has no white space at either end. */
  predicate Trimmed(s: string) {
    s == [] || (!IsSpace(s[0]) && !IsSpace(s[|s| - 1]))
  }

  /** The length of the run of white space at the start of s. */
  function LeadingSpaces(s: string): (n: nat)
    ensures n <= |s|
    ensures forall i :: 0 <= i < n ==> IsSpace(s[i])
    ensures n < |s| ==> !IsSpace(s[n])
    decreases |s|
  {
    if s != [] && IsSpace(s[0]) then 1 + LeadingSpaces(s[1..]) else 0
  }

  /** The length of the run of white space at the end of s. */
  function TrailingSpaces(s: string): (n: nat)
    ensures n <= |s|
    ensures forall i :: |s| - n <= i < |s| ==> IsSpace(s[i])
    ensures n < |s| ==> !IsSpace(s[|s| - 1 - n])
    decreases |s|
  {
    if s != [] && IsSpace(s[|s| - 1]) then 1 + TrailingSpaces(s[..|s| - 1]) else 0
  }

  /** `s.trim()`: the part of s between its leading and its trailing white space. It has
      no white space at its ends, and it is empty exactly when s is all white space. */
  function Trim(s: string): (r: string)
    ensures |r| <= |s| && Trimmed(r)
    ensures r == [] <==> forall i :: 0 <= i < |s| ==> IsSpace(s[i])
    ensures LeadingSpaces(s) + |r| <= |s| && r == s[LeadingSpaces(s)..LeadingSpaces(s) + |r|]
    ensures forall i :: 0 <= i < LeadingSpaces(s) ==> IsSpace(s[i])
    ensures forall i :: LeadingSpaces(s) + |r| <= i < |s| ==> IsSpace(s[i])
  {
    var a := LeadingSpaces(s);
    if a == |s| then []
    else
      var b := |s| - TrailingSpaces(s);
      assert a < b;
      s[a..b]
  }

  /** A string without white space at its ends is left unchanged by `trim`. */
  lemma TrimOfTrimmed(s: string)
    requires Trimmed(s)
    ensures Trim(s) == s
  {
    if s != [] {
      assert LeadingSpaces(s) == 0 && TrailingSpaces(s) == 0;
      assert s[0..|s|] == s;
    }
  }

  predicate IsUpper(c: char) {
    'A' <= c <= 'Z'
  }

  function LowerChar(c: char): char {
    if IsUpper(c) then (c as int + 32) as char else c
  }

  /** `s.toLowerCase()` on the ASCII letters: same length, every upper-case letter becomes its
      lower-case form and every other character is kept. */
  function ToLower(s: string): (r: string)
    ensures |r| == |s|
    ensures forall i :: 0 <= i < |s| ==> !IsUpper(r[i])
    ensures forall i :: 0 <= i < |s| && !IsUpper(s[i]) ==> r[i] == s[i]
    ensures forall i :: 0 <= i < |s| && IsUpper(s[i]) ==> r[i] as int == s[i] as int + 32
  {
    seq(|s|, i requires 0 <= i < |s| => LowerChar(s[i]))
  }

  /** A name in normal form: no white space at its ends and no upper-case letter. */
  predicate IsNormal(s: string) {
    Trimmed(s) && forall i :: 0 <= i < |s| ==> !IsUpper(s[i])
  }

  /** The normal form of a city name, `name.trim().toLowerCase()`: the part of the name
      between its leading and its trailing white space, with each character lower-cased. */
  function Normalize(s: string): (r: string)
    ensures IsNormal(r)
    ensures r == [] <==> forall i :: 0 <= i < |s| ==> IsSpace(s[i])
    ensures LeadingSpaces(s) + |r| <= |s|
    ensures forall i :: 0 <= i < |r| ==> r[i] == LowerChar(s[LeadingSpaces(s) + i])
    ensures forall i :: 0 <= i < LeadingSpaces(s) ==> IsSpace(s[i])
    ensures forall i :: LeadingSpaces(s) + |r| <= i < |s| ==> IsSpace(s[i])
  {
    LowerKeepsTrimmed(Trim(s));
    ToLower(Trim(s))
  }

  /** Lower-casing never turns a letter into white space, so a trimmed string stays trimmed. */
  lemma LowerKeepsTrimmed(t: string)
    requires Trimmed(t)
    ensures Trimmed(ToLower(t))
  {
    var r := ToLower(t);
    if r != [] {
      assert r[0] == LowerChar(t[0]);
      assert r[|r| - 1] == LowerChar(t[|t| - 1]);
    }
  }

  /** The names `Normalize` leaves unchanged are exactly the names in normal form. */
  lemma NormalFixedPoints(s: string)
    ensures Normalize(s) == s <==> IsNormal(s)
  {
    if IsNormal(s) {
      TrimOfTrimmed(s);
      assert ToLower(s) == s by {
        forall i | 0 <= i < |s| ensures ToLower(s)[i] == s[i] {
          assert !IsUpper(s[i]);
        }
      }
    }
  }

  /** Normalizing a name twice gives what normalizing it once gives. */
  lemma NormalizeIdempotent(s: string)
    ensures Normalize(Normalize(s)) == Normalize(s)
  {
    NormalFixedPoints(Normalize(s));
  }

  /** sub occurs in s starting at position i. */
  predicate OccursAt(s: string, sub: string, i: int) {
    0 <= i && i + |sub| <= |s| && s[i..i + |sub|] == sub
  }

  /** `s.includes(sub)`: sub occurs somewhere in s. */
  function Contains(s: string, sub: string): (r: bool)
    ensures r <==> exists i :: OccursAt(s, sub, i)
    decreases |s|
  {
    if |sub| > |s| then false
    else if s[..|sub|] == sub then (assert OccursAt(s, sub, 0); true)
    else
      var rest := Contains(s[1..], sub);
      if rest then
        var k :| OccursAt(s[1..], sub, k);
        OccursShift(s, sub, k + 1);
        true
      else
        assert forall i :: OccursAt(s, sub, i) ==> OccursAt(s[1..], sub, i - 1) by {
          forall i | OccursAt(s, sub, i) ensures OccursAt(s[1..], sub, i - 1) {
            assert i != 0;
            OccursShift(s, sub, i);
          }
        }
        false
  }

  /** An occurrence after the first character is an occurrence in the rest of the string. */
  lemma OccursShift(s: string, sub: string, i: int)
    requires s != [] && i >= 1
    ensures OccursAt(s, sub, i) <==> OccursAt(s[1..], sub, i - 1)
  {
    if i + |sub| <= |s| {
      var a, b := s[i..i + |sub|], s[1..][i - 1..i - 1 + |sub|];
      forall j | 0 <= j < |sub| ensures a[j] == b[j] {
      }
      assert a == b;
    }
  }

  /** s ends with suffix. */
  predicate EndsWith(s: string, suffix: string) {
    |suffix| <= |s| && s[|s| - |suffix|..] == suffix
  }

  /** s starts with prefix. */
  predicate StartsWith(s: string, prefix: string) {
    |prefix| <= |s| && s[..|prefix|] == prefix
  }
}
