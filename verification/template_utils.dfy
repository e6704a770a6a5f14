/**
  The text helpers of `TemplateUtils.java`: choosing the answer format a prompt
  asks for, capitalising a name, writing a getter/setter pair, and expanding
  the getter/setter marker of a model class into one pair per private field.
*/
module TemplateUtils {
  import opened Text
  import opened Optional
  import opened Patterns

  // ---------------------------------------------------------------------------
  // Expected answer format

  /** The five answer formats; their literal texts are not modelled. */
  datatype Format = JsonFormat | ControllerFormat | ServiceFormat | EntityFormat | DefaultFormat

  /** The keywords looked for in the lower-cased prompt, in order, and the format each selects. */
  const FormatRules := [("json", JsonFormat), ("controller", ControllerFormat), ("service", ServiceFormat),
    ("entity", EntityFormat), ("model", EntityFormat)]

  /** Rule `i` is the first whose keyword the text contains. */
  predicate FirstRule(lower: string, i: nat)
    requires i < |FormatRules|
  {
    Contains(lower, FormatRules[i].0) && forall j :: 0 <= j < i ==> !Contains(lower, FormatRules[j].0)
  }

  /**
    The format of the first keyword the lower-cased prompt contains, and the
    default exactly when it contains none.
  */
  function ExtractExpectedFormat(prompt: string): (f: Format)
    ensures f == DefaultFormat <==> forall i :: 0 <= i < |FormatRules| ==> !Contains(ToLower(prompt), FormatRules[i].0)
    ensures f != DefaultFormat ==> exists i :: 0 <= i < |FormatRules| && FormatRules[i].1 == f && FirstRule(ToLower(prompt), i)
  {
    var lower := ToLower(prompt);
    assert FormatRules[0] == ("json", JsonFormat) && FormatRules[1] == ("controller", ControllerFormat);
    assert FormatRules[2] == ("service", ServiceFormat) && FormatRules[3] == ("entity", EntityFormat);
    assert FormatRules[4] == ("model", EntityFormat);
    if Contains(lower, "json") then JsonFormat
    else if Contains(lower, "controller") then ControllerFormat
    else if Contains(lower, "service") then ServiceFormat
    else if Contains(lower, "entity") || Contains(lower, "model") then EntityFormat
    else DefaultFormat
  }

  /** Prompts that differ only in the case of their letters ask for the same format. */
  lemma FormatIgnoresCase(p: string, q: string)
    requires EqualsIgnoreCase(p, q)
    ensures ExtractExpectedFormat(p) == ExtractExpectedFormat(q)
  {
  }

  // ---------------------------------------------------------------------------
  // Getters and setters

  /** The first character upper-cased, the rest unchanged; null and empty text are returned as they are. */
  function Capitalize(str: Option<string>): (r: Option<string>)
    ensures r.Some? <==> str.Some?
    ensures str.Some? ==> |r.value| == |str.value|
    ensures str.Some? && |str.value| > 0 ==> r.value[0] == UpperChar(str.value[0]) && r.value[1..] == str.value[1..]
  {
    if str.None? || |str.value| == 0 then str
    else Some([UpperChar(str.value[0])] + str.value[1..])
  }

  /** Capitalising twice is capitalising once. */
  lemma CapitalizeIdempotent(str: Option<string>)
    ensures Capitalize(Capitalize(str)) == Capitalize(str)
  {
    if str.Some? && |str.value| > 0 {
      var once := Capitalize(str).value;
      assert once == [UpperChar(str.value[0])] + str.value[1..];
      assert UpperChar(once[0]) == once[0];
      assert Capitalize(Capitalize(str)).value == [once[0]] + once[1..] == once;
    }
  }

  /** The name with its first character upper-cased. */
  function Cap(name: string): (c: string)
    ensures |c| == |name|
  {
    Capitalize(Some(name)).value
  }

  /** Capitalising brings in no character other than an upper-case letter. */
  lemma CapKeepsOut(name: string, x: char)
    requires !IsLetter(x)
    ensures x !in name ==> x !in Cap(name)
  {
    if |name| > 0 && x !in name {
      assert Cap(name) == [UpperChar(name[0])] + name[1..];
      assert name[0] in name;
    }
  }

  /** The getter heading. */
  function GetterHead(fieldName: string, fieldType: string): string {
    "public " + fieldType + " get" + Cap(fieldName) + "() {"
  }

  /** The setter heading. */
  function SetterHead(fieldName: string, fieldType: string): string {
    "public void set" + Cap(fieldName) + "(" + fieldType + " " + fieldName + ") {"
  }

  /** The text of the pair, piece by piece as it is appended. */
  function GetterSetterParts(fieldName: string, fieldType: string): seq<string> {
    ["    ", GetterHead(fieldName, fieldType), "\n        ", "return " + fieldName + ";", "\n    }\n\n    ",
     SetterHead(fieldName, fieldType), "\n        ", "this." + fieldName + " = " + fieldName + ";", "\n    }\n"]
  }

  /**
    A getter returning the field and a setter assigning it, each named after
    the capitalised field; no '@' appears unless the field's name or type has one.
  */
  function GetterSetter(fieldName: string, fieldType: string): (code: string)
    ensures Contains(code, GetterHead(fieldName, fieldType))
    ensures Contains(code, "return " + fieldName + ";")
    ensures Contains(code, SetterHead(fieldName, fieldType))
    ensures Contains(code, "this." + fieldName + " = " + fieldName + ";")
    ensures '@' !in fieldName && '@' !in fieldType ==> '@' !in code
  {
    var parts := GetterSetterParts(fieldName, fieldType);
    ContainsPart(parts, 1);
    ContainsPart(parts, 3);
    ContainsPart(parts, 5);
    ContainsPart(parts, 7);
    AccessorsHaveNoAt(fieldName, fieldType);
    Concat(parts)
  }

  lemma AccessorsHaveNoAt(fieldName: string, fieldType: string)
    ensures '@' !in fieldName && '@' !in fieldType ==> '@' !in Concat(GetterSetterParts(fieldName, fieldType))
  {
    if '@' !in fieldName && '@' !in fieldType {
      CapKeepsOut(fieldName, '@');
      CharNotInConcat(GetterSetterParts(fieldName, fieldType), '@');
    }
  }

  // ---------------------------------------------------------------------------
  // Field declarations: the matches of `private\s+(\w+)\s+(\w+);`

  datatype Field = Field(fieldType: string, fieldName: string)

  /**
    The declaration matched at `i`, with the index just after its ';'
    (`private\s+(\w+)\s+(\w+);`); ';' is neither a word character nor
    whitespace, so the greedy runs are the only way to match.
  */
  function FieldMatch(s: string, i: nat): (r: Option<(Field, nat)>)
    requires i <= |s|
    ensures r.Some? ==> i < r.value.1 <= |s| && IsWord(r.value.0.fieldType) && IsWord(r.value.0.fieldName)
    ensures r.Some? ==> i + 7 <= |s| && s[i..i + 7] == "private"
  {
    if !(i + 7 <= |s| && s[i..i + 7] == "private") then None
    else match SpacedWord(s, i + 7)
      case None => None
      case Some((t, c)) =>
        match SpacedWord(s, c)
        case None => None
        case Some((n, e)) => if e < |s| && s[e] == ';' then Some((Field(t, n), e + 1)) else None
  }

  /** The declarations found scanning from `i`, each search resuming after the previous match. */
  function FieldsFrom(s: string, i: nat): (fs: seq<Field>)
    requires i <= |s|
    ensures forall k :: 0 <= k < |fs| ==> IsWord(fs[k].fieldType) && IsWord(fs[k].fieldName)
    decreases |s| - i
  {
    if i == |s| then []
    else match FieldMatch(s, i)
      case Some((f, e)) => [f] + FieldsFrom(s, e)
      case None => FieldsFrom(s, i + 1)
  }

  /** The declarations of the content, in order: exactly one per position a declaration starts at. */
  function Fields(content: string): (fs: seq<Field>)
    ensures forall k :: 0 <= k < |fs| ==> IsWord(fs[k].fieldType) && IsWord(fs[k].fieldName)
    ensures fs == DeclaredFields(content, 0)
  {
    FieldsFromAll(content, 0);
    FieldsFrom(content, 0)
  }

  lemma WordHasNoAt(w: string)
    ensures IsWord(w) ==> '@' !in w
  {
    if IsWord(w) {
      assert forall k :: 0 <= k < |w| ==> w[k] != '@';
    }
  }

  /** A text that starts with a field declaration yields that field first. */
  lemma DeclaredFieldFirst(t: string, n: string, rest: string)
    requires IsWord(t) && IsWord(n)
    ensures |Fields("private " + t + " " + n + ";" + rest)| > 0
    ensures Fields("private " + t + " " + n + ";" + rest)[0] == Field(t, n)
  {
    var s := "private " + t + " " + n + ";" + rest;
    DeclarationLayout(t, n, rest);
    SpacedWordAt(s, 7, t);
    SpacedWordAt(s, 8 + |t|, n);
    assert FieldMatch(s, 0) == Some((Field(t, n), 10 + |t| + |n|));
  }

  /** Where the parts of a single-spaced declaration sit. */
  lemma DeclarationLayout(t: string, n: string, rest: string)
    requires IsWord(t) && IsWord(n)
    ensures var s := "private " + t + " " + n + ";" + rest;
      && s[..7] == "private" && s[7] == ' ' && s[8 + |t|] == ' ' && s[9 + |t| + |n|] == ';'
      && s[8..8 + |t|] == t && s[9 + |t|..9 + |t| + |n|] == n
      && s[8] == t[0] && s[9 + |t|] == n[0]
  {
    var s := "private " + t + " " + n + ";" + rest;
    assert s[..7] == "private";
    assert s[8..8 + |t|] == t;
    assert s[9 + |t|..9 + |t| + |n|] == n;
  }

  /** Text without a 'p' declares no field. */
  lemma {:induction false} NoFieldsWithoutP(s: string, i: nat)
    requires i <= |s| && 'p' !in s
    ensures FieldsFrom(s, i) == []
    decreases |s| - i
  {
    if i < |s| {
      assert FieldMatch(s, i) == None by {
        if i + 7 <= |s| {
          assert s[i] in s;
          assert s[i..i + 7][0] == s[i];
        }
      }
      NoFieldsWithoutP(s, i + 1);
    }
  }

  /** The field of the declaration that starts at `j`, trying every position independently. */
  predicate FieldAt(s: string, j: nat, f: Field) {
    j <= |s| && FieldMatch(s, j).Some? && FieldMatch(s, j).value.0 == f
  }

  /** The declarations starting at or after `i`, one per starting position, in order. */
  function DeclaredFields(s: string, i: nat): seq<Field>
    requires i <= |s|
    decreases |s| - i
  {
    if i == |s| then []
    else (if FieldMatch(s, i).Some? then [FieldMatch(s, i).value.0] else []) + DeclaredFields(s, i + 1)
  }

  /** Where the runs of a matched declaration lie: keyword, spaces, type, spaces, name, ';'. */
  lemma FieldParts(s: string, i: nat) returns (b1: nat, c: nat, b2: nat, e: nat)
    requires i <= |s| && FieldMatch(s, i).Some?
    ensures i + 7 < b1 < c < b2 < e < |s| && FieldMatch(s, i).value.1 == e + 1
    ensures forall k :: i + 7 <= k < b1 ==> IsRegexSpace(s[k])
    ensures forall k :: b1 <= k < c ==> IsWordChar(s[k])
    ensures forall k :: c <= k < b2 ==> IsRegexSpace(s[k])
    ensures forall k :: b2 <= k < e ==> IsWordChar(s[k])
    ensures !IsWordChar(s[c]) && s[e] == ';'
    ensures SpacedWord(s, i + 7) == Some((s[b1..c], c)) && SpacedWord(s, c) == Some((s[b2..e], e))
  {
    b1 := i + 7 + Run(s, i + 7, IsRegexSpace);
    c := b1 + Run(s, b1, IsWordChar);
    b2 := c + Run(s, c, IsRegexSpace);
    e := b2 + Run(s, b2, IsWordChar);
  }

  /** The letters of the keyword: word characters, only the first a 'p'. */
  lemma PrivateLetters(k: nat)
    requires k < 7
    ensures IsWordChar("private"[k]) && (k > 0 ==> "private"[k] != 'p')
  {
    var w := "private";
    assert w[0] == 'p' && w[1] == 'r' && w[2] == 'i' && w[3] == 'v' && w[4] == 'a' && w[5] == 't' && w[6] == 'e';
  }

  /** A declaration cannot start at a character other than 'p'. */
  lemma FieldNotAtOtherLetter(s: string, j: nat)
    requires j < |s| && s[j] != 'p'
    ensures FieldMatch(s, j).None?
  {
  }

  /** Nor where the keyword would run into a character that is not a word character. */
  lemma FieldNotAcross(s: string, j: nat, x: nat)
    requires j < x < j + 7 && x < |s| && !IsWordChar(s[x])
    ensures FieldMatch(s, j).None?
  {
    if j + 7 <= |s| && s[j..j + 7] == "private" {
      assert s[x] == s[j..j + 7][x - j];
      PrivateLetters(x - j);
    }
  }

  /** Nor where no whitespace follows the keyword. */
  lemma FieldNotBeforeNonSpace(s: string, j: nat)
    requires j + 7 < |s| && !IsRegexSpace(s[j + 7])
    ensures FieldMatch(s, j).None?
  {
    assert Run(s, j + 7, IsRegexSpace) == 0;
  }

  /**
    No declaration starts inside another: not in the keyword, not in the
    whitespace, not in the type (whitespace must follow the keyword, and a
    keyword ending where the type ends leaves the name followed by ';' instead
    of a second word), not in the name and not at the ';'.
  */
  lemma FieldsDoNotOverlap(s: string, i: nat, j: nat)
    requires i <= |s| && FieldMatch(s, i).Some? && i < j < FieldMatch(s, i).value.1
    ensures FieldMatch(s, j).None?
  {
    var b1, c, b2, e := FieldParts(s, i);
    if j < i + 7 {
      assert s[j] == s[i..i + 7][j - i];
      PrivateLetters(j - i);
      FieldNotAtOtherLetter(s, j);
    } else if j < b1 || (c <= j < b2) {
      assert IsRegexSpace(s[j]);
      FieldNotAtOtherLetter(s, j);
    } else if j < c {
      if j + 7 < c {
        assert IsWordChar(s[j + 7]);
        FieldNotBeforeNonSpace(s, j);
      } else if j + 7 == c {
        assert SpacedWord(s, e).None? by {
          assert Run(s, e, IsRegexSpace) == 0;
        }
      } else {
        FieldNotAcross(s, j, c);
      }
    } else if j < e {
      if j + 7 < e {
        assert IsWordChar(s[j + 7]);
        FieldNotBeforeNonSpace(s, j);
      } else if j + 7 == e {
        FieldNotBeforeNonSpace(s, j);
      } else {
        FieldNotAcross(s, j, e);
      }
    } else {
      FieldNotAtOtherLetter(s, j);
    }
  }

  /** Positions where no declaration starts add nothing to the declared fields. */
  lemma {:induction false} DeclaredSkip(s: string, i: nat, e: nat)
    requires i <= e <= |s|
    requires forall m :: i <= m < e ==> FieldMatch(s, m).None?
    ensures DeclaredFields(s, i) == DeclaredFields(s, e)
    decreases e - i
  {
    if i < e {
      DeclaredSkip(s, i + 1, e);
    }
  }

  /**
    Resuming the search after each match loses nothing: the scan finds
    exactly the declarations that start at some position, in order.
  */
  lemma {:induction false} FieldsFromAll(s: string, i: nat)
    requires i <= |s|
    ensures FieldsFrom(s, i) == DeclaredFields(s, i)
    decreases |s| - i
  {
    if i < |s| {
      match FieldMatch(s, i)
      case Some((f, e)) =>
        forall m | i + 1 <= m < e
          ensures FieldMatch(s, m).None?
        {
          FieldsDoNotOverlap(s, i, m);
        }
        DeclaredSkip(s, i + 1, e);
        FieldsFromAll(s, e);
      case None =>
        FieldsFromAll(s, i + 1);
    }
  }

  /** Every field in the declared list was declared at some position. */
  lemma {:induction false} DeclaredFound(s: string, i: nat, f: Field) returns (j: nat)
    requires i <= |s| && f in DeclaredFields(s, i)
    ensures i <= j && FieldAt(s, j, f)
    decreases |s| - i
  {
    var head := if FieldMatch(s, i).Some? then [FieldMatch(s, i).value.0] else [];
    assert DeclaredFields(s, i) == head + DeclaredFields(s, i + 1);
    if f in head {
      j := i;
    } else {
      j := DeclaredFound(s, i + 1, f);
    }
  }

  /** Every declaration at or after `i` is in the declared list. */
  lemma {:induction false} DeclaredCollected(s: string, i: nat, j: nat, f: Field)
    requires i <= j && FieldAt(s, j, f)
    ensures f in DeclaredFields(s, i)
    decreases |s| - i
  {
    var head := if FieldMatch(s, i).Some? then [FieldMatch(s, i).value.0] else [];
    assert DeclaredFields(s, i) == head + DeclaredFields(s, i + 1);
    if i < j {
      DeclaredCollected(s, i + 1, j, f);
    } else {
      assert f in head;
    }
  }

  /** The fields of the content are exactly those declared at some position. */
  lemma FieldsExact(content: string, f: Field)
    ensures f in Fields(content) <==> exists j :: FieldAt(content, j, f)
  {
    if f in Fields(content) {
      var j := DeclaredFound(content, 0, f);
    }
    if exists j :: FieldAt(content, j, f) {
      var j :| FieldAt(content, j, f);
      DeclaredCollected(content, 0, j, f);
    }
  }

  // ---------------------------------------------------------------------------
  // Marker expansion

  const Marker := "@GENERATE_GETTERS_SETTERS"

  /** One newline-led getter/setter pair per field, in declaration order. */
  function Accessors(fs: seq<Field>): (code: string)
    ensures (forall k :: 0 <= k < |fs| ==> IsWord(fs[k].fieldType) && IsWord(fs[k].fieldName)) ==> '@' !in code
    ensures |fs| > 0 ==> |code| > 0 && code[0] == '\n'
  {
    if |fs| == 0 then ""
    else
      var head := GetterSetter(fs[0].fieldName, fs[0].fieldType);
      WordHasNoAt(fs[0].fieldType);
      WordHasNoAt(fs[0].fieldName);
      "\n" + head + Accessors(fs[1..])
  }

  /** The block one field contributes: a newline, then its getter/setter pair. */
  function Block(f: Field): string {
    "\n" + GetterSetter(f.fieldName, f.fieldType)
  }

  /** The expansion is the fields' blocks laid end to end: one block per field, in order. */
  lemma {:induction false} AccessorsAreBlocks(fs: seq<Field>)
    ensures Accessors(fs) == Concat(seq(|fs|, k requires 0 <= k < |fs| => Block(fs[k])))
  {
    if |fs| > 0 {
      var blocks := seq(|fs|, k requires 0 <= k < |fs| => Block(fs[k]));
      AccessorsAreBlocks(fs[1..]);
      assert blocks[1..] == seq(|fs[1..]|, k requires 0 <= k < |fs[1..]| => Block(fs[1..][k]));
    }
  }

  /** Expanding two lists of fields one after the other is expanding their concatenation. */
  lemma {:induction false} AccessorsAppend(a: seq<Field>, b: seq<Field>)
    ensures Accessors(a + b) == Accessors(a) + Accessors(b)
    decreases |a|
  {
    if |a| > 0 {
      assert (a + b)[0] == a[0];
      assert (a + b)[1..] == a[1..] + b;
      AccessorsAppend(a[1..], b);
    } else {
      assert a + b == b;
    }
  }

  /** Each field's pair appears in the expansion. */
  lemma {:induction false} AccessorsContainEachField(fs: seq<Field>, k: nat)
    requires k < |fs|
    ensures Contains(Accessors(fs), GetterSetter(fs[k].fieldName, fs[k].fieldType))
  {
    var head := GetterSetter(fs[0].fieldName, fs[0].fieldType);
    if k == 0 {
      ContainsSelf("\n", head, Accessors(fs[1..]));
    } else {
      AccessorsContainEachField(fs[1..], k - 1);
      ContainsInConcat("\n" + head, Accessors(fs[1..]), "", GetterSetter(fs[k].fieldName, fs[k].fieldType));
      assert "\n" + head + Accessors(fs[1..]) + "" == Accessors(fs);
    }
  }

  /**
    Model content without the marker comes back unchanged; otherwise every
    marker is replaced by the pairs of the private fields the content declares.
  */
  function ProcessGetterSetter(content: string): (r: string)
    ensures !Contains(content, Marker) ==> r == content
    ensures Contains(content, Marker) ==> var m := IndexOf(content, Marker);
      0 <= m && m + |Marker| <= |content| &&
      r == content[..m] + Accessors(Fields(content)) + ReplaceAll(content[m + |Marker|..], Marker, Accessors(Fields(content)))
  {
    if !Contains(content, Marker) then content
    else
      ReplaceFirst(content, Marker, Accessors(Fields(content)));
      ReplaceAll(content, Marker, Accessors(Fields(content)))
  }

  /** The marker's '@' is its only one. */
  lemma MarkerLetters(k: nat)
    requires 0 < k < |Marker|
    ensures Marker[k] != '@'
  {
    assert Marker[1..] == "GENERATE_GETTERS_SETTERS";
    assert Marker[k] == Marker[1..][k - 1];
  }

  /**
    Content with a single marker gets the pairs of all its fields spliced in
    where the marker stood, with the text on both sides kept.
  */
  lemma SingleMarkerSpliced(before: string, after: string)
    requires !Contains(before, Marker) && !Contains(after, Marker)
    ensures ProcessGetterSetter(before + Marker + after)
      == before + Accessors(Fields(before + Marker + after)) + after
  {
    var s := before + Marker + after;
    assert s[|before|..|before| + |Marker|] == Marker;
    assert OccursAt(s, Marker, |before|);
    var m := IndexOf(s, Marker);
    if m < |before| {
      if m + |Marker| <= |before| {
        assert before[m..m + |Marker|] == s[m..m + |Marker|];
        assert OccursAt(before, Marker, m);
      } else {
        assert s[|before|] == '@';
        assert s[|before|] == s[m..m + |Marker|][|before| - m];
        MarkerLetters(|before| - m);
      }
    }
    assert m == |before|;
    assert s[..m] == before && s[m + |Marker|..] == after;
  }

  /** With at least one field, the marker is gone from the result. */
  lemma MarkerGone(content: string)
    requires |Fields(content)| > 0
    ensures !Contains(ProcessGetterSetter(content), Marker)
  {
    if Contains(content, Marker) {
      var g := Accessors(Fields(content));
      assert '\n' !in Marker;
      JoinAvoids(SplitOn(content, Marker), g, Marker);
    }
  }
}
