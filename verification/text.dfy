/**
  String helpers shared by every module: Java's `trim`, `contains`, `startsWith`,
  `endsWith`, `indexOf`, `lastIndexOf`, ASCII case mapping, literal `split`,
  literal `replace`, and the line splitting the extractors scan over.
  Strings are `seq<char>`; case mapping is restricted to ASCII.
*/
module Text {

  /** Characters removed by Java's `String.trim()`: everything at or below U+0020. */
  predicate IsTrimmable(c: char) { c <= ' ' }

  /** The `\s` character class of `java.util.regex`. */
  predicate IsRegexSpace(c: char) {
    c == ' ' || c == '\t' || c == '\n' || c == '\U{0B}' || c == '\U{0C}' || c == '\r'
  }

  /** The `\w` character class of `java.util.regex`. */
  predicate IsWordChar(c: char) {
    ('a' <= c <= 'z') || ('A' <= c <= 'Z') || ('0' <= c <= '9') || c == '_'
  }

  predicate IsLetter(c: char) { ('a' <= c <= 'z') || ('A' <= c <= 'Z') }

  predicate IsLowerAlnum(c: char) { ('a' <= c <= 'z') || ('0' <= c <= '9') }

  /** A string made only of trimmable characters (a blank line). */
  predicate IsBlank(s: string) {
    forall i :: 0 <= i < |s| ==> IsTrimmable(s[i])
  }

  function TrimStart(s: string): (r: string)
    ensures |r| <= |s| && r == s[|s| - |r|..]
    ensures r == [] || !IsTrimmable(r[0])
  {
    if |s| > 0 && IsTrimmable(s[0]) then TrimStart(s[1..]) else s
  }

  function TrimEnd(s: string): (r: string)
    ensures |r| <= |s| && r == s[..|r|]
    ensures r == [] || !IsTrimmable(r[|r| - 1])
  {
    if |s| > 0 && IsTrimmable(s[|s| - 1]) then TrimEnd(s[..|s| - 1]) else s
  }

  /** `TrimStart` removes only trimmable characters. */
  lemma {:induction false} TrimStartDropsBlank(s: string)
    ensures IsBlank(s[..|s| - |TrimStart(s)|])
  {
    if |s| > 0 && IsTrimmable(s[0]) {
      TrimStartDropsBlank(s[1..]);
      assert s[..|s| - |TrimStart(s)|] == [s[0]] + s[1..][..|s| - 1 - |TrimStart(s[1..])|];
    }
  }

  /** `TrimEnd` removes only trimmable characters. */
  lemma {:induction false} TrimEndDropsBlank(s: string)
    ensures IsBlank(s[|TrimEnd(s)|..])
  {
    if |s| > 0 && IsTrimmable(s[|s| - 1]) {
      TrimEndDropsBlank(s[..|s| - 1]);
      assert s[|TrimEnd(s)|..] == s[..|s| - 1][|TrimEnd(s[..|s| - 1])|..] + [s[|s| - 1]];
    }
  }

  /** Java's `String.trim()`. */
  function Trim(s: string): (r: string)
    ensures r == [] || (!IsTrimmable(r[0]) && !IsTrimmable(r[|r| - 1]))
  {
    TrimEnd(TrimStart(s))
  }

  /** The trimmed string is a contiguous slice of the original. */
  lemma TrimIsSlice(s: string) returns (k: nat)
    ensures k + |Trim(s)| <= |s| && Trim(s) == s[k..k + |Trim(s)|]
  {
    var t := TrimStart(s);
    k := |s| - |t|;
    assert Trim(s) == t[..|Trim(s)|];
  }

  /** Trimming yields nothing exactly when the string is blank. */
  lemma TrimEmptyIffBlank(s: string)
    ensures Trim(s) == [] <==> IsBlank(s)
  {
    var t := TrimStart(s);
    if Trim(s) == [] {
      TrimStartDropsBlank(s);
      TrimEndDropsBlank(t);
      assert IsBlank(t[0..]);
      assert s == s[..|s| - |t|] + t;
    } else {
      var k := TrimIsSlice(s);
      assert s[k] == Trim(s)[0];
    }
  }

  /** Trimming cuts off only trimmable characters on either side. */
  lemma TrimBounds(s: string) returns (k: nat)
    ensures k + |Trim(s)| <= |s| && Trim(s) == s[k..k + |Trim(s)|]
    ensures forall j :: 0 <= j < k ==> IsTrimmable(s[j])
    ensures forall j :: k + |Trim(s)| <= j < |s| ==> IsTrimmable(s[j])
  {
    var t := TrimStart(s);
    k := |s| - |t|;
    LeadingTrimmed(s);
    TrailingTrimmed(s);
    assert Trim(s) == t[..|Trim(s)|];
  }

  lemma LeadingTrimmed(s: string)
    ensures forall j :: 0 <= j < |s| - |TrimStart(s)| ==> IsTrimmable(s[j])
  {
    var k := |s| - |TrimStart(s)|;
    TrimStartDropsBlank(s);
    assert s[..k] == s[0..k];
    BlankSlice(s, 0, k);
  }

  lemma TrailingTrimmed(s: string)
    ensures forall j :: |s| - |TrimStart(s)| + |Trim(s)| <= j < |s| ==> IsTrimmable(s[j])
  {
    var t := TrimStart(s);
    TrimEndDropsBlank(t);
    BlankTail(s, t, |s| - |t|, |TrimEnd(t)|);
  }

  lemma BlankTail(s: string, t: string, k: nat, n: nat)
    requires k <= |s| && t == s[k..] && n <= |t| && IsBlank(t[n..])
    ensures forall j :: k + n <= j < |s| ==> IsTrimmable(s[j])
  {
    forall j | k + n <= j < |s| ensures IsTrimmable(s[j]) {
      assert t[n..][j - k - n] == s[j];
    }
  }

  /** A blank slice consists of trimmable characters. */
  lemma BlankSlice(s: string, i: nat, j: nat)
    requires i <= j <= |s| && IsBlank(s[i..j])
    ensures forall m :: i <= m < j ==> IsTrimmable(s[m])
  {
    forall m | i <= m < j ensures IsTrimmable(s[m]) {
      assert s[i..j][m - i] == s[m];
    }
  }

  /** An occurrence inside a slice is an occurrence in the slice. */
  lemma OccursInSlice(s: string, sub: string, i: nat, k: nat, n: nat)
    requires OccursAt(s, sub, i) && k <= i && i + |sub| <= k + n <= |s|
    ensures OccursAt(s[k..k + n], sub, i - k)
  {
    var w := s[k..k + n];
    forall m | 0 <= m < |sub| ensures w[i - k + m] == sub[m] {
      assert w[i - k + m] == s[i + m] == s[i..i + |sub|][m];
    }
    assert w[i - k..i - k + |sub|] == sub;
  }

  /** Trimming keeps every occurrence of a sub-string that starts and ends with a visible character. */
  lemma ContainsTrim(s: string, sub: string)
    requires |sub| > 0 && !IsTrimmable(sub[0]) && !IsTrimmable(sub[|sub| - 1]) && Contains(s, sub)
    ensures Contains(Trim(s), sub)
  {
    var i: nat :| i <= |s| && OccursAt(s, sub, i);
    var k := OccurrenceWithinTrim(s, sub, i);
    OccursInSlice(s, sub, i, k, |Trim(s)|);
    assert OccursAt(Trim(s), sub, i - k);
  }

  /** An occurrence that starts and ends with visible characters lies within the trimmed part. */
  lemma OccurrenceWithinTrim(s: string, sub: string, i: nat) returns (k: nat)
    requires |sub| > 0 && !IsTrimmable(sub[0]) && !IsTrimmable(sub[|sub| - 1]) && OccursAt(s, sub, i)
    ensures k <= i && i + |sub| <= k + |Trim(s)| <= |s| && Trim(s) == s[k..k + |Trim(s)|]
  {
    k := TrimBounds(s);
    assert s[i] == sub[0] && s[i + |sub| - 1] == sub[|sub| - 1];
  }

  /** Lower-casing keeps containment, with the sub-string lower-cased too. */
  lemma ContainsLower(s: string, sub: string)
    requires Contains(s, sub)
    ensures Contains(ToLower(s), ToLower(sub))
  {
    var i: nat :| i <= |s| && OccursAt(s, sub, i);
    assert ToLower(s)[i..i + |sub|] == ToLower(sub);
    assert OccursAt(ToLower(s), ToLower(sub), i);
  }

  predicate StartsWith(s: string, p: string) {
    |p| <= |s| && s[..|p|] == p
  }

  predicate EndsWith(s: string, p: string) {
    |p| <= |s| && s[|s| - |p|..] == p
  }

  /** Of two suffixes of one string, the shorter is a suffix of the longer. */
  lemma EndsWithBoth(s: string, a: string, b: string)
    requires EndsWith(s, a) && EndsWith(s, b) && |a| <= |b|
    ensures EndsWith(b, a)
  {
    assert b[|b| - |a|..] == s[|s| - |a|..];
  }

  /** `sub` occurs in `s` starting at index `i`. */
  predicate OccursAt(s: string, sub: string, i: nat) {
    i + |sub| <= |s| && s[i..i + |sub|] == sub
  }

  /** Java's `String.contains`. */
  predicate Contains(s: string, sub: string) {
    exists i: nat | i <= |s| :: OccursAt(s, sub, i)
  }

  /** A string that contains a sub-string also contains it when extended on either side. */
  lemma ContainsInConcat(a: string, b: string, c: string, sub: string)
    requires Contains(b, sub)
    ensures Contains(a + b + c, sub)
  {
    var i: nat :| i <= |b| && OccursAt(b, sub, i);
    assert (a + b + c)[|a| + i..|a| + i + |sub|] == sub;
    assert OccursAt(a + b + c, sub, |a| + i);
  }

  lemma ContainsSelf(a: string, b: string, c: string)
    ensures Contains(a + b + c, b)
  {
    assert (a + b + c)[|a|..|a| + |b|] == b;
    assert OccursAt(a + b + c, b, |a|);
  }

  /** Containment in a slice carries over to the whole string. */
  lemma ContainsInSlice(s: string, k: nat, n: nat, sub: string)
    requires k + n <= |s| && Contains(s[k..k + n], sub)
    ensures Contains(s, sub)
  {
    ContainsInConcat(s[..k], s[k..k + n], s[k + n..], sub);
    assert s == s[..k] + s[k..k + n] + s[k + n..];
  }

  /** Containment is transitive. */
  lemma ContainsTransitive(s: string, mid: string, sub: string)
    requires Contains(s, mid) && Contains(mid, sub)
    ensures Contains(s, sub)
  {
    var i: nat :| i <= |s| && OccursAt(s, mid, i);
    var j: nat :| j <= |mid| && OccursAt(mid, sub, j);
    forall k | 0 <= k < |sub| ensures s[i + j + k] == sub[k] {
      assert sub[k] == mid[j..j + |sub|][k] == mid[j + k];
      assert mid[j + k] == s[i..i + |mid|][j + k];
    }
    assert s[i + j..i + j + |sub|] == sub;
    assert OccursAt(s, sub, i + j);
  }

  lemma ContainsPrefix(s: string, p: string)
    requires StartsWith(s, p)
    ensures Contains(s, p)
  {
    assert OccursAt(s, p, 0);
  }

  /** A string containing `sub` contains every prefix of `sub`. */
  lemma ContainsPrefixOf(s: string, sub: string, n: nat)
    requires n <= |sub| && Contains(s, sub)
    ensures Contains(s, sub[..n])
  {
    var i: nat :| i <= |s| && OccursAt(s, sub, i);
    assert s[i..i + n] == s[i..i + |sub|][..n];
    assert OccursAt(s, sub[..n], i);
  }

  /** A blank string contains no sub-string that has a visible character. */
  lemma BlankContainsOnlyBlank(s: string, sub: string, j: nat)
    requires IsBlank(s) && j < |sub| && !IsTrimmable(sub[j])
    ensures !Contains(s, sub)
  {
    forall i: nat | i <= |s|
      ensures !OccursAt(s, sub, i)
    {
      if i + |sub| <= |s| {
        assert s[i..i + |sub|][j] == s[i + j];
      }
    }
  }
  /** First index at or after `i` where `sub` occurs, or -1: Java's `indexOf(sub, i)`. */
  function IndexFrom(s: string, sub: string, i: nat): (r: int)
    requires i <= |s|
    ensures r == -1 || (i <= r && OccursAt(s, sub, r))
    ensures r == -1 ==> forall j: nat :: i <= j ==> !OccursAt(s, sub, j)
    ensures r >= 0 ==> forall j: nat :: i <= j < r ==> !OccursAt(s, sub, j)
    decreases |s| - i
  {
    if i + |sub| > |s| then -1
    else if OccursAt(s, sub, i) then i
    else IndexFrom(s, sub, i + 1)
  }

  /** Java's `indexOf(sub)`. */
  function IndexOf(s: string, sub: string): (r: int)
    ensures r == -1 <==> !Contains(s, sub)
    ensures r >= 0 ==> OccursAt(s, sub, r)
    ensures forall j: nat :: j < r ==> !OccursAt(s, sub, j)
  {
    IndexFrom(s, sub, 0)
  }

  /** Java's `lastIndexOf(c)`. */
  function LastIndexOfChar(s: string, c: char): (r: int)
    ensures -1 <= r < |s|
    ensures r >= 0 ==> s[r] == c
    ensures forall j :: r < j < |s| ==> s[j] != c
  {
    if |s| == 0 then -1
    else if s[|s| - 1] == c then |s| - 1
    else LastIndexOfChar(s[..|s| - 1], c)
  }

  function LowerChar(c: char): (r: char)
    ensures IsLetter(c) ==> IsLetter(r) && !('A' <= r <= 'Z')
    ensures !IsLetter(c) ==> r == c
  {
    if 'A' <= c <= 'Z' then (c as int + 32) as char else c
  }

  function UpperChar(c: char): (r: char)
    ensures IsLetter(c) ==> IsLetter(r) && !('a' <= r <= 'z')
    ensures !IsLetter(c) ==> r == c
  {
    if 'a' <= c <= 'z' then (c as int - 32) as char else c
  }

  /** Java's `toLowerCase()`, restricted to ASCII letters. */
  function ToLower(s: string): (r: string)
    ensures |r| == |s|
    ensures forall i :: 0 <= i < |s| ==> r[i] == LowerChar(s[i])
  {
    seq(|s|, i requires 0 <= i < |s| => LowerChar(s[i]))
  }

  /** Java's `toUpperCase()`, restricted to ASCII letters. */
  function ToUpper(s: string): (r: string)
    ensures |r| == |s|
    ensures forall i :: 0 <= i < |s| ==> r[i] == UpperChar(s[i])
  {
    seq(|s|, i requires 0 <= i < |s| => UpperChar(s[i]))
  }

  /** Lower-casing keeps every non-letter in place, so containment of a non-letter survives. */
  lemma LowerKeepsChar(s: string, c: char)
    requires !IsLetter(c)
    ensures Contains(ToLower(s), [c]) <==> Contains(s, [c])
  {
    if Contains(s, [c]) {
      var i: nat :| i <= |s| && OccursAt(s, [c], i);
      assert s[i] == c;
      assert OccursAt(ToLower(s), [c], i);
    }
    if Contains(ToLower(s), [c]) {
      var i: nat :| i <= |s| && OccursAt(ToLower(s), [c], i);
      assert ToLower(s)[i] == c;
      assert OccursAt(s, [c], i);
    }
  }

  /** Java's `equalsIgnoreCase`, restricted to ASCII letters. */
  predicate EqualsIgnoreCase(a: string, b: string) {
    ToLower(a) == ToLower(b)
  }

  /** Concatenation of a sequence of strings with a separator between neighbours. */
  function Join(parts: seq<string>, sep: string): string
  {
    if |parts| == 0 then ""
    else if |parts| == 1 then parts[0]
    else parts[0] + sep + Join(parts[1..], sep)
  }

  /** Concatenation of a sequence of strings. */
  function Concat(parts: seq<string>): string
  {
    if |parts| == 0 then "" else parts[0] + Concat(parts[1..])
  }

  /** Every part occurs in the concatenation. */
  lemma {:induction false} ContainsPart(parts: seq<string>, k: nat)
    requires k < |parts|
    ensures Contains(Concat(parts), parts[k])
  {
    if k == 0 {
      ContainsSelf("", parts[0], Concat(parts[1..]));
      assert "" + parts[0] + Concat(parts[1..]) == Concat(parts);
    } else {
      ContainsPart(parts[1..], k - 1);
      ContainsInConcat(parts[0], Concat(parts[1..]), "", parts[k]);
      assert parts[0] + Concat(parts[1..]) + "" == Concat(parts);
    }
  }

  /** Concatenation distributes over appending sequences of parts. */
  lemma {:induction false} ConcatAppend(a: seq<string>, b: seq<string>)
    ensures Concat(a + b) == Concat(a) + Concat(b)
  {
    if |a| > 0 {
      ConcatAppend(a[1..], b);
      assert (a + b)[1..] == a[1..] + b;
      assert (a + b)[0] == a[0];
    } else {
      assert a + b == b;
    }
  }

  /** A character missing from every part is missing from the concatenation. */
  lemma {:induction false} CharNotInConcat(parts: seq<string>, c: char)
    requires forall k :: 0 <= k < |parts| ==> c !in parts[k]
    ensures c !in Concat(parts)
  {
    if |parts| > 0 {
      CharNotInConcat(parts[1..], c);
      assert c !in parts[0];
    }
  }

  /**
    Literal split at every left-to-right, non-overlapping occurrence of `sep`,
    keeping every piece (also empty ones).
  */
  function SplitOn(s: string, sep: string): (pieces: seq<string>)
    requires |sep| > 0
    ensures |pieces| >= 1
    ensures forall k :: 0 <= k < |pieces| ==> !Contains(pieces[k], sep)
    ensures Join(pieces, sep) == s
    decreases |s|
  {
    var i := IndexOf(s, sep);
    if i < 0 then [s]
    else
      var head := s[..i];
      var tail := SplitOn(s[i + |sep|..], sep);
      assert !Contains(head, sep) by {
        if Contains(head, sep) {
          var j: nat :| j <= |head| && OccursAt(head, sep, j);
          assert s[j..j + |sep|] == head[j..j + |sep|];
          assert OccursAt(s, sep, j);
        }
      }
      assert s == head + sep + s[i + |sep|..];
      [head] + tail
  }

  /** Drops the empty strings at the end of a list, as Java's `split` does with its pieces. */
  function DropTrailingEmpty(parts: seq<string>): (r: seq<string>)
    ensures |r| <= |parts| && r == parts[..|r|]
    ensures r == [] || r[|r| - 1] != []
    ensures forall k :: |r| <= k < |parts| ==> parts[k] == []
  {
    if |parts| == 0 || parts[|parts| - 1] != [] then parts else DropTrailingEmpty(parts[..|parts| - 1])
  }

  /**
    The length of Java's `s.split(sep)` for a separator without regex metacharacters:
    the input itself when `sep` does not occur, otherwise the pieces without the
    trailing empty ones.
  */
  function SplitLength(s: string, sep: string): (n: nat)
    requires |sep| > 0
    ensures n <= |SplitOn(s, sep)|
    ensures !Contains(s, sep) ==> n == 1
  {
    if !Contains(s, sep) then 1 else |DropTrailingEmpty(SplitOn(s, sep))|
  }

  /** A joined list whose last piece is empty ends with the separator. */
  lemma {:induction false} JoinEndsWithSep(parts: seq<string>, sep: string)
    requires |parts| >= 2 && parts[|parts| - 1] == []
    ensures EndsWith(Join(parts, sep), sep)
  {
    var rest := Join(parts[1..], sep);
    if |parts| > 2 {
      JoinEndsWithSep(parts[1..], sep);
      assert (parts[0] + sep + rest)[|parts[0] + sep + rest| - |sep|..] == rest[|rest| - |sep|..];
    } else {
      assert rest == [];
    }
  }

  /** When the text does not end with the separator, no piece is dropped. */
  lemma SplitLengthCountsPieces(s: string, sep: string)
    requires |sep| > 0 && Contains(s, sep) && !EndsWith(s, sep)
    ensures SplitLength(s, sep) == |SplitOn(s, sep)|
  {
    var pieces := SplitOn(s, sep);
    assert |pieces| >= 2;
    if pieces[|pieces| - 1] == [] {
      JoinEndsWithSep(pieces, sep);
      assert false;
    }
  }

  /** Split into lines at each '\n'; the pieces re-joined with '\n' give back the text. */
  function Lines(s: string): (r: seq<string>)
    ensures |r| >= 1
    ensures forall k :: 0 <= k < |r| ==> !Contains(r[k], "\n")
    ensures Join(r, "\n") == s
  {
    SplitOn(s, "\n")
  }

  /** Java's `String.replace(target, replacement)` for a non-empty literal target. */
  function ReplaceAll(s: string, target: string, replacement: string): (r: string)
    requires |target| > 0
    ensures !Contains(s, target) ==> r == s
  {
    Join(SplitOn(s, target), replacement)
  }

  /**
    Replacing every occurrence replaces the first one, at the index `indexOf`
    reports, and then carries on in the text after it.
  */
  lemma ReplaceFirst(s: string, target: string, replacement: string)
    requires |target| > 0 && Contains(s, target)
    ensures var m := IndexOf(s, target);
      0 <= m && m + |target| <= |s| &&
      ReplaceAll(s, target, replacement) == s[..m] + replacement + ReplaceAll(s[m + |target|..], target, replacement)
  {
    var m := IndexOf(s, target);
    var rest := SplitOn(s[m + |target|..], target);
    assert SplitOn(s, target) == [s[..m]] + rest;
    assert ([s[..m]] + rest)[1..] == rest;
  }

  /** The length of the longest run, starting at `i`, of characters in a regex character class. */
  function Run(s: string, i: nat, inClass: char -> bool): (n: nat)
    requires i <= |s|
    ensures i + n <= |s|
    ensures forall k :: i <= k < i + n ==> inClass(s[k])
    ensures i + n == |s| || !inClass(s[i + n])
    decreases |s| - i
  {
    if i == |s| || !inClass(s[i]) then 0 else 1 + Run(s, i + 1, inClass)
  }

  /**
    A joined list avoids `sub` when no piece contains it, the separator is not
    empty, `sub` cannot start inside the separator and the separator's first
    character never occurs in `sub`.
  */
  lemma {:induction false} JoinAvoids(pieces: seq<string>, sep: string, sub: string)
    requires |sep| > 0 && |sub| > 0
    requires forall k :: 0 <= k < |pieces| ==> !Contains(pieces[k], sub)
    requires sub[0] !in sep && sep[0] !in sub
    ensures !Contains(Join(pieces, sep), sub)
  {
    if |pieces| == 1 {
      assert !Contains(pieces[0], sub);
    } else if |pieces| > 1 {
      var head := pieces[0];
      var rest := Join(pieces[1..], sep);
      JoinAvoids(pieces[1..], sep, sub);
      var s := head + sep + rest;
      forall i: nat | i <= |s| ensures !OccursAt(s, sub, i) {
        if i + |sub| <= |head| {
          assert s[i..i + |sub|] == head[i..i + |sub|];
          assert !OccursAt(head, sub, i);
        } else if i < |head| {
          if i + |sub| <= |s| {
            assert s[i..i + |sub|][|head| - i] == sep[0];
            assert sub[|head| - i] in sub;
          }
        } else if i < |head| + |sep| {
          assert s[i] == sep[i - |head|];
          assert sep[i - |head|] in sep;
        } else if i + |sub| <= |s| {
          assert s[i..i + |sub|] == rest[i - |head| - |sep|..i - |head| - |sep| + |sub|];
          assert !OccursAt(rest, sub, i - |head| - |sep|);
        }
      }
    }
  }

  /** The run is exactly as long as the characters of the class that follow `i`. */
  lemma RunExact(s: string, i: nat, n: nat, inClass: char -> bool)
    requires i + n <= |s|
    requires forall k :: i <= k < i + n ==> inClass(s[k])
    requires i + n == |s| || !inClass(s[i + n])
    ensures Run(s, i, inClass) == n
  {
  }

  /** Decimal rendering of a natural number, as `String.valueOf(long)` prints it. */
  function NatToString(n: nat): (r: string)
    ensures |r| >= 1
    ensures forall i :: 0 <= i < |r| ==> '0' <= r[i] <= '9'
    ensures r[0] == '0' ==> n == 0
  {
    if n < 10 then [Digit(n)]
    else NatToString(n / 10) + [Digit(n % 10)]
  }

  function Digit(d: nat): (c: char)
    requires d < 10
    ensures '0' <= c <= '9'
    ensures c == '0' <==> d == 0
  {
    ('0' as int + d) as char
  }
}
