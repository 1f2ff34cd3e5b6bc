/** The three ECMAScript string builtins the core relies on: `trim` (blank-row
    detection in the submission form), `toLowerCase` and `includes` (catalog
    search). Strings are sequences of Unicode scalar values (`char`); the
    UTF-16 code units of JavaScript strings, and lone surrogates, are not modelled. */
module JsString {

  /** The ECMAScript WhiteSpace and LineTerminator code points, which `trim` removes. */
  predicate IsWhiteSpace(c: char) {
    c == '\t' || c == '\n' || c == '\U{000B}' || c == '\U{000C}' || c == '\r' || c == ' '
    || c == '\U{00A0}' || c == '\U{1680}' || ('\U{2000}' <= c <= '\U{200A}')
    || c == '\U{2028}' || c == '\U{2029}' || c == '\U{202F}' || c == '\U{205F}'
    || c == '\U{3000}' || c == '\U{FEFF}'
  }

  /** Drops leading white space: the result is the longest suffix not starting with it. */
  function TrimStart(s: string): (r: string)
    ensures |r| <= |s| && r == s[|s| - |r|..]
    ensures forall i :: 0 <= i < |s| - |r| ==> IsWhiteSpace(s[i])
    ensures r == [] || !IsWhiteSpace(r[0])
    decreases |s|
  {
    if s != [] && IsWhiteSpace(s[0]) then TrimStart(s[1..]) else s
  }

  /** Drops trailing white space: the result is the longest prefix not ending with it. */
  function TrimEnd(s: string): (r: string)
    ensures |r| <= |s| && r == s[..|r|]
    ensures forall i :: |r| <= i < |s| ==> IsWhiteSpace(s[i])
    ensures r == [] || !IsWhiteSpace(r[|r| - 1])
    decreases |s|
  {
    if s != [] && IsWhiteSpace(s[|s| - 1]) then TrimEnd(s[..|s| - 1]) else s
  }

  /** `String.prototype.trim`. */
  function Trim(s: string): string {
    TrimEnd(TrimStart(s))
  }

  /** `s.trim()` is falsy, i.e. the empty string. */
  predicate IsBlank(s: string) {
    Trim(s) == []
  }

  /** A string is blank exactly when every character of it is white space. */
  lemma BlankIffAllWhiteSpace(s: string)
    ensures IsBlank(s) <==> forall i :: 0 <= i < |s| ==> IsWhiteSpace(s[i])
  {
    var t := TrimStart(s);
    if !forall i :: 0 <= i < |s| ==> IsWhiteSpace(s[i]) {
      var k :| 0 <= k < |s| && !IsWhiteSpace(s[k]);
      assert k >= |s| - |t|;
      assert t[k - (|s| - |t|)] == s[k];
      assert TrimEnd(t) != [];
    }
  }

  /** `toLowerCase` on one character, for the scripts the catalog uses: Latin
      A-Z and the Cyrillic capitals U+0400-U+042F; every other character is
      its own lower case. */
  function LowerChar(c: char): (l: char)
    ensures 'A' <= c <= 'Z' ==> l as int == c as int + 32
    ensures '\U{0410}' <= c <= '\U{042F}' ==> l as int == c as int + 32
    ensures '\U{0400}' <= c <= '\U{040F}' ==> l as int == c as int + 80
  {
    if 'A' <= c <= 'Z' || '\U{0410}' <= c <= '\U{042F}' then (c as int + 32) as char
    else if '\U{0400}' <= c <= '\U{040F}' then (c as int + 80) as char
    else c
  }

  /** Lower-casing is idempotent on every character. */
  lemma LowerCharIdempotent(c: char)
    ensures LowerChar(LowerChar(c)) == LowerChar(c)
  {
  }

  /** `String.prototype.toLowerCase`, character by character. */
  function ToLowerCase(s: string): (r: string)
    ensures |r| == |s|
    ensures forall i :: 0 <= i < |s| ==> r[i] == LowerChar(s[i])
  {
    seq(|s|, i requires 0 <= i < |s| => LowerChar(s[i]))
  }

  /** Lower-casing commutes with taking a slice. */
  lemma ToLowerCaseSlice(s: string, i: nat, j: nat)
    requires i <= j <= |s|
    ensures ToLowerCase(s)[i..j] == ToLowerCase(s[i..j])
  {
  }

  /** `q` occurs in `s` starting at index `i`. */
  ghost predicate OccursAt(s: string, q: string, i: nat) {
    i + |q| <= |s| && s[i..i + |q|] == q
  }

  /** `String.prototype.includes`: `q` occurs somewhere in `s`. */
  function Includes(s: string, q: string): bool
    decreases |s|
  {
    if |q| > |s| then false
    else if s[..|q|] == q then true
    else Includes(s[1..], q)
  }

  /** `Includes` is substring search: true exactly when some position of `s`
      starts an occurrence of `q`. */
  lemma IncludesIffOccurs(s: string, q: string)
    ensures Includes(s, q) <==> exists i: nat :: OccursAt(s, q, i)
  {
    if Includes(s, q) {
      IncludesSound(s, q);
    }
    if exists i: nat :: OccursAt(s, q, i) {
      var i: nat :| OccursAt(s, q, i);
      IncludesComplete(s, q, i);
    }
  }

  lemma {:induction false} IncludesSound(s: string, q: string)
    requires Includes(s, q)
    ensures exists i: nat :: OccursAt(s, q, i)
    decreases |s|
  {
    if s[..|q|] == q {
      assert OccursAt(s, q, 0);
    } else {
      IncludesSound(s[1..], q);
      var i: nat :| OccursAt(s[1..], q, i);
      assert s[i + 1..i + 1 + |q|] == s[1..][i..i + |q|];
      assert OccursAt(s, q, i + 1);
    }
  }

  lemma {:induction false} IncludesComplete(s: string, q: string, i: nat)
    requires OccursAt(s, q, i)
    ensures Includes(s, q)
    decreases i
  {
    if i > 0 && s[..|q|] != q {
      assert s[1..][i - 1..i - 1 + |q|] == s[i..i + |q|];
      IncludesComplete(s[1..], q, i - 1);
    }
  }

  /** The empty string occurs in every string, so an empty query matches everything. */
  lemma IncludesEmpty(s: string)
    ensures Includes(s, "")
  {
  }

  /** Case-insensitive containment of the query's lower case in the text's lower case. */
  predicate IncludesIgnoringCase(text: string, query: string) {
    Includes(ToLowerCase(text), ToLowerCase(query))
  }
}
