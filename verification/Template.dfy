/**
 Replacement fields, as Python's `string.Formatter` reads them and `str.format` fills them.
 `Format` is None when the text is refused: a lone brace, a field that is not a placeholder, a
 conversion or a format spec.
 */
module Template {
  import opened Chars
  import opened Wrappers

  /** The placeholders of a query (names of lower-case letters and underscores), each with the text that replaces it. */
  type Values = map<string, string>

  /** Length of the run of characters a placeholder name is made of. */
  function NameLength(text: string): (n: nat)
    ensures n <= |text|
    ensures forall i :: 0 <= i < n ==> 'a' <= text[i] <= 'z' || text[i] == '_'
  {
    if text != "" && ('a' <= text[0] <= 'z' || text[0] == '_') then 1 + NameLength(text[1..]) else 0
  }

  predicate Braces(c: char) {
    c == '{' || c == '}'
  }

  predicate FieldEnd(c: char) {
    c == '}' || c == ':' || c == '!' || c == '\0'
  }

  /**
   Length of what may end a field after its name: no conversion and an empty spec, 0 for anything else.
   A NUL conversion reads as none.
   */
  function SuffixLength(text: string): (n: nat)
    ensures n <= |text|
    ensures forall i :: 0 <= i < n ==> FieldEnd(text[i])
  {
    if |text| >= 1 && text[0] == '}' then 1
    else if |text| >= 2 && text[0] == ':' && text[1] == '}' then 2
    else if |text| >= 3 && text[0] == '!' && text[1] == '\0' && text[2] == '}' then 3
    else if |text| >= 4 && text[0] == '!' && text[1] == '\0' && text[2] == ':' && text[3] == '}' then 4
    else 0
  }

  /** The replacement and the length of the field whose name and suffix `text` starts with. */
  function FieldAt(text: string, values: Values): (r: Option<(string, nat)>)
    ensures r.Some? ==> r.value.0 in values.Values && 0 < r.value.1 <= |text|
  {
    var n := NameLength(text);
    var tail := SuffixLength(text[n..]);
    if text[..n] in values && tail > 0 then Some((values[text[..n]], n + tail)) else None
  }

  /** One step of the formatter: what it writes and how much of the text it reads. */
  function Step(text: string, values: Values): (r: Option<(string, nat)>)
    requires text != ""
    ensures r.Some? ==> 0 < r.value.1 <= |text|
  {
    if text[0] == '{' then
      if |text| > 1 && text[1] == '{' then Some(("{", 2))
      else
        var field :- FieldAt(text[1..], values);
        Some((field.0, field.1 + 1))
    else if text[0] == '}' then
      if |text| > 1 && text[1] == '}' then Some(("}", 2)) else None
    else Some(([text[0]], 1))
  }

  function Format(text: string, values: Values): Option<string>
    decreases |text|
  {
    if text == "" then Some("")
    else
      var step :- Step(text, values);
      var rest :- Format(text[step.1..], values);
      Some(step.0 + rest)
  }

  lemma {:induction false} NameLengthLocal(a: string, b: string)
    ensures NameLength(a) < |a| ==> NameLength(a + b) == NameLength(a)
    ensures NameLength(a + b) < |a| ==> NameLength(a) == NameLength(a + b)
  {
    if a != "" {
      assert (a + b)[0] == a[0] && (a + b)[1..] == a[1..] + b;
      NameLengthLocal(a[1..], b);
    }
  }

  /** A field reads the same whatever follows it, and holds no space. */
  lemma FieldAtLocal(a: string, b: string, values: Values)
    ensures FieldAt(a, values).Some? ==> FieldAt(a + b, values) == FieldAt(a, values)
    ensures FieldAt(a + b, values).Some? && FieldAt(a + b, values).value.1 <= |a| ==> FieldAt(a, values) == FieldAt(a + b, values)
  {
    NameLengthLocal(a, b);
    var n := NameLength(a + b);
    if n < |a| {
      assert (a + b)[..n] == a[..n];
      assert (a + b)[n..] == a[n..] + b;
    }
  }

  /** The characters of a replacement field or of a doubled brace. */
  predicate FieldChar(c: char) {
    'a' <= c <= 'z' || c == '_' || c == '{' || FieldEnd(c)
  }

  lemma FieldAtChars(text: string, values: Values)
    requires FieldAt(text, values).Some?
    ensures forall i :: 0 <= i < FieldAt(text, values).value.1 ==> FieldChar(text[i])
    ensures text[FieldAt(text, values).value.1 - 1] == '}'
  {
    var n := NameLength(text);
    forall i | n <= i < FieldAt(text, values).value.1 ensures FieldChar(text[i]) {
      assert FieldEnd(text[n..][i - n]);
    }
  }

  /** A step reads the same thing whatever follows it. */
  lemma StepLocal(a: string, b: string, values: Values)
    requires a != ""
    ensures Step(a, values).Some? ==> Step(a + b, values) == Step(a, values)
    ensures Step(a + b, values).Some? && Step(a + b, values).value.1 <= |a| ==> Step(a, values) == Step(a + b, values)
  {
    assert (a + b)[0] == a[0];
    assert |a| > 1 ==> (a + b)[1] == a[1];
    assert (a + b)[1..] == a[1..] + b;
    FieldAtLocal(a[1..], b, values);
  }

  /** A step reads one character as it is, or a field or a doubled brace, which hold no space. */
  lemma StepReads(text: string, values: Values)
    requires text != "" && Step(text, values).Some?
    ensures var (x, n) := Step(text, values).value;
            || (n == 1 && x == [text[0]] && !Braces(text[0]))
            || (n > 1 && (x in values.Values || x == "{" || x == "}") && Braces(text[n - 1])
                && (forall i :: 0 <= i < n ==> FieldChar(text[i])))
  {
    if text[0] == '{' && !(|text| > 1 && text[1] == '{') {
      FieldAtChars(text[1..], values);
      var n := Step(text, values).value.1;
      forall i | 0 <= i < n ensures FieldChar(text[i]) {
        assert i > 0 ==> text[i] == text[1..][i - 1];
      }
    }
  }

  /** What ends a field ends it: nothing but the end of a field follows in it. */
  lemma FieldEndLast(text: string, values: Values, i: nat)
    requires FieldAt(text, values).Some? && i + 1 < FieldAt(text, values).value.1 && FieldEnd(text[i])
    ensures FieldEnd(text[i + 1])
  {
    var n := NameLength(text);
    assert i >= n;
    assert FieldEnd(text[n..][i + 1 - n]);
  }

  lemma StepEndLast(text: string, values: Values, i: nat)
    requires text != "" && Step(text, values).Some? && i + 1 < Step(text, values).value.1 && FieldEnd(text[i])
    ensures FieldEnd(text[i + 1])
  {
    if text[0] == '{' {
      FieldEndLast(text[1..], values, i - 1);
    }
  }

  /**
   The place where two texts meet is no place inside a field: one of them is empty, or no field is made of what is
   there, or one may have ended there.
   */
  predicate CutOutside(a: string, b: string) {
    a == "" || b == "" || !FieldChar(a[|a| - 1]) || !FieldChar(b[0]) || (FieldEnd(a[|a| - 1]) && !FieldEnd(b[0]))
  }

  lemma Assoc(x: string, y: string, z: string)
    ensures x + (y + z) == (x + y) + z
  {
  }

  /** `Format` of a text whose first step is known. */
  lemma FormatStep(a: string, b: string, values: Values, x: string, n: nat)
    requires a != "" && n <= |a| && Step(a, values) == Some((x, n))
    requires Step(a + b, values) == Some((x, n))
    ensures Format(a, values) == (if Format(a[n..], values).Some? then Some(x + Format(a[n..], values).value) else None)
    ensures Format(a + b, values) ==
            (if Format(a[n..] + b, values).Some? then Some(x + Format(a[n..] + b, values).value) else None)
  {
    assert (a + b)[n..] == a[n..] + b;
  }

  lemma {:induction false} FormatConcat(a: string, b: string, values: Values)
    requires Format(a, values).Some? && Format(b, values).Some?
    ensures Format(a + b, values) == Some(Format(a, values).value + Format(b, values).value)
    decreases |a|
  {
    if a == "" {
      assert a + b == b && "" + Format(b, values).value == Format(b, values).value;
    } else {
      StepLocal(a, b, values);
      var (x, n) := Step(a, values).value;
      FormatStep(a, b, values, x, n);
      FormatConcat(a[n..], b, values);
      Assoc(x, Format(a[n..], values).value, Format(b, values).value);
    }
  }

  /** A step of an accepted text never reads across such a place. */
  lemma StepBeforeCut(a: string, b: string, values: Values)
    requires a != "" && CutOutside(a, b) && Step(a + b, values).Some?
    ensures Step(a + b, values).value.1 <= |a|
  {
    var n := Step(a + b, values).value.1;
    if n > |a| {
      assert (a + b)[|a| - 1] == a[|a| - 1] && (a + b)[|a|] == b[0];
      StepReads(a + b, values);
      if FieldEnd(a[|a| - 1]) {
        StepEndLast(a + b, values, |a| - 1);
      }
    }
  }

  /** A text that is accepted is accepted on both sides of such a place. */
  lemma {:induction false} FormatSplit(a: string, b: string, values: Values)
    requires Format(a + b, values).Some? && CutOutside(a, b)
    ensures Format(a, values).Some? && Format(b, values).Some?
    ensures Format(a + b, values) == Some(Format(a, values).value + Format(b, values).value)
    decreases |a|
  {
    if a == "" {
      assert a + b == b && "" + Format(b, values).value == Format(b, values).value;
    } else {
      StepBeforeCut(a, b, values);
      StepLocal(a, b, values);
      var (x, n) := Step(a, values).value;
      FormatStep(a, b, values, x, n);
      FormatSplit(a[n..], b, values);
      Assoc(x, Format(a[n..], values).value, Format(b, values).value);
    }
  }

  /** Whether a template is accepted as one does not depend on what fills it. */
  lemma {:induction false} FilledWhenAllowed(text: string, values: Values, others: Values)
    requires Format(text, values).Some? && values.Keys == others.Keys
    ensures Format(text, others).Some?
    decreases |text|
  {
    if text != "" {
      var n := Step(text, values).value.1;
      assert Step(text, others).Some? && Step(text, others).value.1 == n;
      FilledWhenAllowed(text[n..], values, others);
    }
  }

  // ---------- placeholders and text without braces ----------

  function Hole(placeholder: string): string {
    "{" + placeholder + "}"
  }

  predicate NoBrace(s: string) {
    forall i :: 0 <= i < |s| ==> !Braces(s[i])
  }

  lemma {:induction false} FormatNoBrace(s: string, values: Values)
    requires NoBrace(s)
    ensures Format(s, values) == Some(s)
  {
    if s != "" {
      FormatNoBrace(s[1..], values);
      assert [s[0]] + s[1..] == s;
    }
  }

  /** Characters that are no brace are written as they are, whatever follows. */
  lemma {:induction false} FormatPast(a: string, b: string, values: Values)
    requires NoBrace(a)
    ensures Format(a + b, values) == if Format(b, values).Some? then Some(a + Format(b, values).value) else None
  {
    if a == "" {
      assert a + b == b && (Format(b, values).Some? ==> "" + Format(b, values).value == Format(b, values).value);
    } else {
      assert (a + b)[0] == a[0] && (a + b)[1..] == a[1..] + b;
      FormatPast(a[1..], b, values);
      if Format(b, values).Some? {
        assert [a[0]] + (a[1..] + Format(b, values).value) == a + Format(b, values).value;
      }
    }
  }

  predicate PlaceholderName(name: string) {
    forall i :: 0 <= i < |name| ==> 'a' <= name[i] <= 'z' || name[i] == '_'
  }

  /** A placeholder and what follows it is filled when what follows it is. */
  lemma HoleStep(placeholder: string, rest: string, values: Values)
    requires placeholder in values && placeholder != "" && PlaceholderName(placeholder)
    ensures Format(Hole(placeholder) + rest, values)
            == if Format(rest, values).Some? then Some(values[placeholder] + Format(rest, values).value) else None
  {
    HoleFirst(placeholder, rest, values);
    assert (Hole(placeholder) + rest)[|placeholder| + 2..] == rest;
  }

  lemma HoleFirst(placeholder: string, rest: string, values: Values)
    requires placeholder in values && placeholder != "" && PlaceholderName(placeholder)
    ensures Step(Hole(placeholder) + rest, values) == Some((values[placeholder], |placeholder| + 2))
  {
    var text := Hole(placeholder) + rest;
    assert text[1..] == placeholder + ("}" + rest);
    assert text[1] == placeholder[0];
    HoleField(placeholder, rest, values);
  }

  lemma HoleField(placeholder: string, rest: string, values: Values)
    requires placeholder in values && PlaceholderName(placeholder)
    ensures FieldAt(placeholder + ("}" + rest), values) == Some((values[placeholder], |placeholder| + 1))
  {
    PlaceholderLength(placeholder, "}" + rest);
    var text := placeholder + ("}" + rest);
    assert text[..|placeholder|] == placeholder && text[|placeholder|..] == "}" + rest;
  }

  lemma {:induction false} PlaceholderLength(name: string, rest: string)
    requires PlaceholderName(name) && rest != "" && rest[0] == '}'
    ensures NameLength(name + rest) == |name|
  {
    if name != "" {
      assert (name + rest)[0] == name[0] && (name + rest)[1..] == name[1..] + rest;
      PlaceholderLength(name[1..], rest);
    } else {
      assert name + rest == rest;
    }
  }
}
