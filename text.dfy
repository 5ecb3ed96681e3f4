/** String helpers the catalog script relies on: JavaScript's notion of
    white space (shared by String.prototype.trim and the regex class \s),
    trimming, ASCII case mapping, substring search (indexOf / includes),
    first-occurrence replacement and the last path segment. */
module Text {

  /** The characters JavaScript treats as white space or line terminators:
      space, tab to carriage return, and the Unicode spaces from no-break
      space upwards. */
  predicate IsSpace(c: char) {
    if c < '\U{00A0}' then c == ' ' || ('\t' <= c <= '\r')
    else WideSpace(c)
  }

  predicate WideSpace(c: char) {
    || c == '\U{00A0}' || c == '\U{1680}' || ('\U{2000}' <= c <= '\U{200A}')
    || c == '\U{2028}' || c == '\U{2029}' || c == '\U{202F}' || c == '\U{205F}'
    || c == '\U{3000}' || c == '\U{FEFF}'
  }

  ghost predicate AllSpace(s: string) {
    SpaceBetween(s, 0, |s|)
  }

  /** Every character of `s` at positions lo..hi-1 is white space. */
  ghost predicate SpaceBetween(s: string, lo: int, hi: int) {
    forall i :: lo <= i < hi && 0 <= i < |s| ==> IsSpace(s[i])
  }

  /** The first position at or after `i` that is not white space (or |s|):
      trim's scan past the leading white space. */
  function SkipSpace(s: string, i: nat): (j: nat)
    requires i <= |s|
    ensures i <= j <= |s| && SpaceBetween(s, i, j)
    ensures j == |s| || !IsSpace(s[j])
    decreases |s| - i
  {
    if i < |s| && IsSpace(s[i]) then SkipSpace(s, i + 1) else i
  }

  /** The end of `s[lo..j]` once its trailing white space is dropped: trim's
      scan back over the trailing white space, never past `lo`. */
  function BackSpace(s: string, lo: nat, j: nat): (k: nat)
    requires lo <= j <= |s|
    ensures lo <= k <= j && SpaceBetween(s, k, j)
    ensures k == lo || !IsSpace(s[k - 1])
    decreases j
  {
    if lo < j && IsSpace(s[j - 1]) then BackSpace(s, lo, j - 1) else j
  }

  /** String.prototype.trim: the slice of `s` between its leading and its
      trailing white space. It neither starts nor ends with white space, and
      is empty exactly when `s` is all white space. */
  function Trim(s: string): (r: string)
    ensures |r| <= |s|
    ensures r == [] || (!IsSpace(r[0]) && !IsSpace(r[|r| - 1]))
    ensures r == [] <==> AllSpace(s)
  {
    var a := SkipSpace(s, 0);
    var b := BackSpace(s, a, |s|);
    assert a == b ==> AllSpace(s) by {
      if a == b {
        forall i | 0 <= i < |s| ensures IsSpace(s[i]) {
          if i < a {
            assert SpaceBetween(s, 0, a);
          }
        }
      }
    }
    s[a..b]
  }

  /** What trim removes is white space only: `s` is the white space before
      offset `k`, then the trimmed value, then white space. */
  lemma TrimSlice(s: string) returns (k: nat)
    ensures k + |Trim(s)| <= |s| && Trim(s) == s[k..k + |Trim(s)|]
    ensures SpaceBetween(s, 0, k) && SpaceBetween(s, k + |Trim(s)|, |s|)
  {
    k := SkipSpace(s, 0);
  }

  /** Trimming twice is trimming once. */
  lemma TrimIdempotent(s: string)
    ensures Trim(Trim(s)) == Trim(s)
  {
    var r := Trim(s);
    if r != [] {
      assert SkipSpace(r, 0) == 0;
      assert BackSpace(r, 0, |r|) == |r|;
    }
  }

  function LowerChar(c: char): (d: char)
    ensures !('A' <= d <= 'Z')
    ensures 'A' <= c <= 'Z' ==> 'a' <= d <= 'z' && d as int - c as int == 32
    ensures !('A' <= c <= 'Z') ==> d == c
  {
    if 'A' <= c <= 'Z' then (c as int + 32) as char else c
  }

  function UpperChar(c: char): (d: char)
    ensures !('a' <= d <= 'z')
    ensures 'a' <= c <= 'z' ==> 'A' <= d <= 'Z' && c as int - d as int == 32
    ensures !('a' <= c <= 'z') ==> d == c
  {
    if 'a' <= c <= 'z' then (c as int - 32) as char else c
  }

  /** String.prototype.toLowerCase on the ASCII letters: every upper-case
      letter is replaced by its lower-case partner, nothing else changes. */
  function ToLower(s: string): (r: string)
    ensures |r| == |s|
    ensures forall i :: 0 <= i < |r| ==> !('A' <= r[i] <= 'Z')
    ensures forall i :: 0 <= i < |s| && !('A' <= s[i] <= 'Z') ==> r[i] == s[i]
    ensures forall i :: 0 <= i < |s| && 'A' <= s[i] <= 'Z' ==> r[i] as int == s[i] as int + 32
    ensures forall i :: 0 <= i < |s| ==> IsSpace(r[i]) == IsSpace(s[i])
  {
    seq(|s|, i requires 0 <= i < |s| => LowerChar(s[i]))
  }

  /** Two strings that agree on which positions are white space agree on
      whether they start or end with it. */
  lemma EndsKeepSpace(t: string, q: string)
    requires |q| == |t| && forall i :: 0 <= i < |t| ==> IsSpace(q[i]) == IsSpace(t[i])
    requires t == [] || (!IsSpace(t[0]) && !IsSpace(t[|t| - 1]))
    ensures q == [] || (!IsSpace(q[0]) && !IsSpace(q[|q| - 1]))
  {
  }

  lemma ToLowerIdempotent(s: string)
    ensures ToLower(ToLower(s)) == ToLower(s)
  {
  }

  /** The label shown for a category value: first character upper-cased,
      the rest untouched (charAt(0).toUpperCase() + slice(1)). */
  function Capitalize(s: string): (r: string)
    ensures |r| == |s|
    ensures |s| > 0 ==> r[0] == UpperChar(s[0]) && r[1..] == s[1..]
  {
    if s == [] then [] else [UpperChar(s[0])] + s[1..]
  }

  ghost predicate OccursAt(s: string, sub: string, i: int) {
    0 <= i && i + |sub| <= |s| && s[i..i + |sub|] == sub
  }

  /** String.prototype.indexOf: the first position at which `sub` occurs in
      `s`, or -1 when it occurs nowhere. */
  function IndexOf(s: string, sub: string): (r: int)
    ensures r == -1 || 0 <= r <= |s| - |sub|
    ensures r == -1 <==> forall i :: 0 <= i <= |s| - |sub| ==> !OccursAt(s, sub, i)
    ensures r >= 0 ==> OccursAt(s, sub, r) && forall i :: 0 <= i < r ==> !OccursAt(s, sub, i)
  {
    if |sub| > |s| then -1
    else if s[..|sub|] == sub then assert OccursAt(s, sub, 0); 0
    else
      var j := IndexOf(s[1..], sub);
      assert forall i :: 1 <= i <= |s| - |sub| ==> (OccursAt(s, sub, i) <==> OccursAt(s[1..], sub, i - 1)) by {
        forall i | 1 <= i <= |s| - |sub| ensures OccursAt(s, sub, i) <==> OccursAt(s[1..], sub, i - 1) {
          assert s[1..][i - 1..i - 1 + |sub|] == s[i..i + |sub|];
        }
      }
      if j == -1 then -1 else assert OccursAt(s, sub, j + 1); j + 1
  }

  /** String.prototype.includes. */
  function Contains(s: string, sub: string): (b: bool)
    ensures b <==> exists i :: OccursAt(s, sub, i)
  {
    IndexOf(s, sub) >= 0
  }

  /** Every string contains the empty string. */
  lemma ContainsEmpty(s: string)
    ensures Contains(s, "")
  {
    assert OccursAt(s, "", 0);
  }

  /** String.prototype.replace with a string pattern and a replacement
      without `$` patterns (inserted literally): only the first occurrence
      is replaced; a string without the pattern is unchanged. */
  function ReplaceFirst(s: string, pat: string, rep: string): (r: string)
    ensures IndexOf(s, pat) == -1 ==> r == s
    ensures IndexOf(s, pat) >= 0 ==>
      var i := IndexOf(s, pat);
      r == s[..i] + rep + s[i + |pat|..]
  {
    var i := IndexOf(s, pat);
    if i < 0 then s else s[..i] + rep + s[i + |pat|..]
  }

  /** path.split('/').pop(): the part after the last '/', or all of `path`
      when it has no '/'. */
  function LastSegment(path: string): (r: string)
    ensures '/' !in r
    ensures |r| <= |path| && r == path[|path| - |r|..]
    ensures |r| < |path| ==> path[|path| - |r| - 1] == '/'
  {
    if path == [] then []
    else if path[|path| - 1] == '/' then []
    else
      var r := LastSegment(path[..|path| - 1]) + [path[|path| - 1]];
      assert path[..|path| - 1][|path| - |r|..] + [path[|path| - 1]] == path[|path| - |r|..];
      r
  }
}
