/** The string operations the scoring engine applies to skill labels and
    names: `toLowerCase`, `trim`, `includes`, and the character-code order
    that stands for the database's `ORDER BY name`. */
module Text {

  predicate IsUpper(c: char) {
    'A' <= c <= 'Z'
  }

  /** Lower-cases an ASCII capital letter and leaves every other character alone. */
  function LowerChar(c: char): (d: char)
    ensures !IsUpper(d)
    ensures IsUpper(c) ==> d as int == c as int + 32
    ensures !IsUpper(c) ==> d == c
  {
    if IsUpper(c) then (c as int + 32) as char else c
  }

  /** `s.toLowerCase()`, on ASCII letters. */
  function ToLower(s: string): (r: string)
    ensures |r| == |s|
    ensures forall i :: 0 <= i < |s| ==> r[i] == LowerChar(s[i])
  {
    seq(|s|, i requires 0 <= i < |s| => LowerChar(s[i]))
  }

  /** Lower-casing twice is lower-casing once. */
  lemma ToLowerIdempotent(s: string)
    ensures ToLower(ToLower(s)) == ToLower(s)
  {
  }

  /** Two labels that differ only in the case of ASCII letters lower-case alike. */
  lemma ToLowerIgnoresCase(a: string, b: string)
    requires |a| == |b|
    requires forall i :: 0 <= i < |a| ==> LowerChar(a[i]) == LowerChar(b[i])
    ensures ToLower(a) == ToLower(b)
  {
  }

  /** The characters `String.prototype.trim` removes: ECMAScript's WhiteSpace
      and LineTerminator code points. */
  predicate IsJsWhitespace(c: char) {
    || c == ' ' || c == '\t' || c == '\n' || c == '\r'
    || c == '\U{000B}' || c == '\U{000C}' || c == '\U{00A0}' || c == '\U{1680}'
    || ('\U{2000}' <= c <= '\U{200A}')
    || c == '\U{2028}' || c == '\U{2029}' || c == '\U{202F}' || c == '\U{205F}'
    || c == '\U{3000}' || c == '\U{FEFF}'
  }

  predicate AllWhitespace(s: string) {
    forall i :: 0 <= i < |s| ==> IsJsWhitespace(s[i])
  }

  function TrimStart(s: string): (r: string)
    ensures r == [] || !IsJsWhitespace(r[0])
    ensures |r| <= |s| && s == s[..|s| - |r|] + r && AllWhitespace(s[..|s| - |r|])
  {
    if s != [] && IsJsWhitespace(s[0]) then
      var r := TrimStart(s[1..]);
      PeelFirst(s, r);
      AllWhitespaceCons(s[0], s[1..][..|s[1..]| - |r|]);
      r
    else s
  }

  function TrimEnd(s: string): (r: string)
    ensures r == [] || !IsJsWhitespace(r[|r| - 1])
    ensures |r| <= |s| && s == r + s[|r|..] && AllWhitespace(s[|r|..])
  {
    if s != [] && IsJsWhitespace(s[|s| - 1]) then
      var r := TrimEnd(s[..|s| - 1]);
      PeelLast(s, r);
      AllWhitespaceSnoc(s[..|s| - 1][|r|..], s[|s| - 1]);
      r
    else s
  }

  /** `s` is its first character, then the front of `s[1..]`, then `r`. */
  lemma PeelFirst(s: string, r: string)
    requires s != [] && |r| < |s| && s[1..] == s[1..][..|s[1..]| - |r|] + r
    ensures s == s[..|s| - |r|] + r && s[..|s| - |r|] == [s[0]] + s[1..][..|s[1..]| - |r|]
  {
    assert s == [s[0]] + s[1..];
  }

  lemma AllWhitespaceCons(c: char, t: string)
    requires IsJsWhitespace(c) && AllWhitespace(t)
    ensures AllWhitespace([c] + t)
  {
    assert forall i :: 1 <= i <= |t| ==> ([c] + t)[i] == t[i - 1];
  }

  /** `s` is `r` followed by the rest of its front `s[..|s| - 1]` and its last character. */
  lemma PeelLast(s: string, r: string)
    requires s != [] && |r| < |s| && s[..|s| - 1] == r + s[..|s| - 1][|r|..]
    ensures s == r + s[|r|..] && s[|r|..] == s[..|s| - 1][|r|..] + [s[|s| - 1]]
  {
    assert s == s[..|s| - 1] + [s[|s| - 1]];
  }

  lemma AllWhitespaceSnoc(t: string, c: char)
    requires AllWhitespace(t) && IsJsWhitespace(c)
    ensures AllWhitespace(t + [c])
  {
    assert forall i :: 0 <= i < |t| ==> (t + [c])[i] == t[i];
  }

  /** `s.trim()`: `s` is the result with runs of whitespace on either side. */
  function Trim(s: string): (r: string)
    ensures r == [] || (!IsJsWhitespace(r[0]) && !IsJsWhitespace(r[|r| - 1]))
    ensures exists i, j :: 0 <= i <= j <= |s| && r == s[i..j]
                       && AllWhitespace(s[..i]) && AllWhitespace(s[j..])
  {
    TrimFacts(s);
    TrimEnd(TrimStart(s))
  }

  lemma TrimFacts(s: string)
    ensures var r := TrimEnd(TrimStart(s));
      && (r == [] || (!IsJsWhitespace(r[0]) && !IsJsWhitespace(r[|r| - 1])))
      && exists i, j :: 0 <= i <= j <= |s| && r == s[i..j]
                     && AllWhitespace(s[..i]) && AllWhitespace(s[j..])
  {
    var t := TrimStart(s);
    var r := TrimEnd(t);
    TrimEndsNotBlank(t, r);
    TrimWithin(s, t, r);
  }

  /** `r`, a front of `t` that does not end in whitespace, starts where `t` does. */
  lemma TrimEndsNotBlank(t: string, r: string)
    requires t == [] || !IsJsWhitespace(t[0])
    requires r == [] || !IsJsWhitespace(r[|r| - 1])
    requires |r| <= |t| && t == r + t[|r|..]
    ensures r == [] || (!IsJsWhitespace(r[0]) && !IsJsWhitespace(r[|r| - 1]))
  {
    assert r != [] ==> r[0] == t[0];
  }

  /** `r`, the front of the suffix `t` of `s`, sits in `s` between two runs of whitespace. */
  lemma TrimWithin(s: string, t: string, r: string)
    requires |t| <= |s| && s == s[..|s| - |t|] + t && AllWhitespace(s[..|s| - |t|])
    requires |r| <= |t| && t == r + t[|r|..] && AllWhitespace(t[|r|..])
    ensures exists i, j :: 0 <= i <= j <= |s| && r == s[i..j]
                       && AllWhitespace(s[..i]) && AllWhitespace(s[j..])
  {
    var i, j := |s| - |t|, |s| - |t| + |r|;
    assert s[j..] == t[|r|..];
    assert r == s[i..j];
  }

  /** A string with no whitespace at either end is its own trim. */
  lemma TrimNoop(s: string)
    requires s == [] || (!IsJsWhitespace(s[0]) && !IsJsWhitespace(s[|s| - 1]))
    ensures Trim(s) == s
  {
  }

  /** `needle` occurs in `hay` starting at position `i`. */
  predicate OccursAt(hay: string, needle: string, i: int) {
    0 <= i <= |hay| - |needle| && hay[i..i + |needle|] == needle
  }

  lemma OccursShift(hay: string, needle: string, i: int)
    requires hay != [] && 1 <= i
    ensures OccursAt(hay, needle, i) <==> OccursAt(hay[1..], needle, i - 1)
  {
    if 0 <= i - 1 <= |hay[1..]| - |needle| {
      var a, b := hay[i..i + |needle|], hay[1..][i - 1..i - 1 + |needle|];
      assert |a| == |b| && forall k :: 0 <= k < |a| ==> a[k] == hay[i + k] == b[k];
      assert a == b;
    }
  }

  /** `hay.includes(needle)`: `needle` occurs in `hay` as a contiguous piece. */
  function Includes(hay: string, needle: string): (b: bool)
    ensures b <==> exists i :: OccursAt(hay, needle, i)
  {
    if needle <= hay then
      assert OccursAt(hay, needle, 0);
      true
    else if hay == [] then false
    else
      var b := Includes(hay[1..], needle);
      assert !OccursAt(hay, needle, 0);
      assert forall i :: 1 <= i ==> (OccursAt(hay, needle, i) <==> OccursAt(hay[1..], needle, i - 1)) by {
        forall i | 1 <= i ensures OccursAt(hay, needle, i) <==> OccursAt(hay[1..], needle, i - 1) {
          OccursShift(hay, needle, i);
        }
      }
      assert b ==> exists i :: OccursAt(hay, needle, i) by {
        if b {
          var j :| OccursAt(hay[1..], needle, j);
          assert OccursAt(hay, needle, j + 1);
        }
      }
      b
  }

  /** Every string includes the empty string. */
  lemma IncludesEmpty(hay: string)
    ensures Includes(hay, "")
  {
    assert OccursAt(hay, "", 0);
  }

  /** A needle whose first character appears nowhere it could start does not occur. */
  lemma NotIncludes(hay: string, needle: string)
    requires needle != []
    requires |needle| > |hay| || needle[0] !in hay[..|hay| - |needle| + 1]
    ensures !Includes(hay, needle)
  {
  }

  /** Character-code order on strings: `a` sorts no later than `b`. */
  predicate LexLe(a: string, b: string) {
    if a == [] then true
    else if b == [] then false
    else if a[0] != b[0] then a[0] < b[0]
    else LexLe(a[1..], b[1..])
  }

  lemma {:induction false} LexLeTotal(a: string, b: string)
    ensures LexLe(a, b) || LexLe(b, a)
  {
    if a != [] && b != [] && a[0] == b[0] {
      LexLeTotal(a[1..], b[1..]);
    }
  }

  lemma {:induction false} LexLeTransitive(a: string, b: string, c: string)
    requires LexLe(a, b) && LexLe(b, c)
    ensures LexLe(a, c)
  {
    if a != [] && b != [] && c != [] && a[0] == b[0] && b[0] == c[0] {
      LexLeTransitive(a[1..], b[1..], c[1..]);
    }
  }
}
