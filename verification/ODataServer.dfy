/**
 A filter as the server reads it. The filter goes into the URL as it is written, and the server decodes its percent
 escapes, and its `+`s if it takes those for blanks, before it parses it: what the guard reads is not always what the
 server reads.
 */
module ODataServer {
  import opened Chars
  import opened Wrappers
  import opened Mask
  import opened Template
  import opened WindowGuard
  import opened ODataQuery
  import opened FilterTokens
  import opened FilterText
  import opened ODataWindow
  import opened ODataPlus

  // ---------- percent escapes ----------

  predicate Hex(c: char) {
    '0' <= c <= '9' || 'a' <= c <= 'f' || 'A' <= c <= 'F'
  }

  function HexValue(c: char): (v: nat)
    requires Hex(c)
    ensures v < 16
  {
    if '0' <= c <= '9' then c as int - '0' as int
    else if 'a' <= c <= 'f' then c as int - 'a' as int + 10
    else c as int - 'A' as int + 10
  }

  /** An escape stands first. */
  predicate Escape(text: string) {
    |text| >= 3 && text[0] == '%' && Hex(text[1]) && Hex(text[2])
  }

  function Byte(text: string): (b: nat)
    requires Escape(text)
    ensures b < 256
  {
    16 * HexValue(text[1]) + HexValue(text[2])
  }

  /** The length of the run of escapes of bytes past ASCII a text starts with. */
  function HighRun(text: string): (n: nat)
    ensures n <= |text|
    ensures forall i :: 0 <= i < n ==> text[i] == '%' || Hex(text[i])
  {
    if Escape(text) && Byte(text) >= 128 then 3 + HighRun(text[3..]) else 0
  }

  /** What the server makes of a run of bytes past ASCII: characters past ASCII, or nothing when it is no UTF-8. */
  type Utf8 = string -> Option<string>

  /** How a server decodes: whether it takes a `+` for a blank. */
  datatype Server = Server(utf8: Utf8, plus: bool) {
    function Plain(s: string): (r: string)
      ensures |r| == |s|
    {
      if plus then Blanked(s) else s
    }
  }

  /** What a text starts with, decoded, and how much of the text it is. None for a `%` that starts no escape. */
  function Piece(server: Server, text: string): (r: Option<(string, nat)>)
    requires text != ""
    ensures r.Some? ==> 0 < r.value.1 <= |text|
  {
    if text[0] != '%' then Some((server.Plain([text[0]]), 1))
    else if HighRun(text) > 0 then
      var run :- (server.utf8)(text[..HighRun(text)]);
      Some((run, HighRun(text)))
    else if Escape(text) then Some(([Byte(text) as char], 3))
    else None
  }

  function Decode(server: Server, text: string): Option<string>
    decreases |text|
  {
    if text == "" then Some("")
    else
      var piece :- Piece(server, text);
      var rest :- Decode(server, text[piece.1..]);
      Some(piece.0 + rest)
  }

  predicate NoPercent(s: string) {
    forall i :: 0 <= i < |s| ==> s[i] != '%'
  }

  lemma PlainParts(server: Server, s: string)
    requires s != ""
    ensures server.Plain(s) == server.Plain([s[0]]) + server.Plain(s[1..])
  {
    BlankedHalves(s, 1);
    assert s[..1] == [s[0]];
  }

  lemma {:induction false} DecodePast(server: Server, a: string, b: string)
    requires NoPercent(a)
    ensures Decode(server, a + b)
            == if Decode(server, b).Some? then Some(server.Plain(a) + Decode(server, b).value) else None
  {
    if a == "" {
      assert a + b == b && (Decode(server, b).Some? ==> "" + Decode(server, b).value == Decode(server, b).value);
    } else {
      assert (a + b)[0] == a[0] && (a + b)[1..] == a[1..] + b;
      DecodePast(server, a[1..], b);
      if Decode(server, b).Some? {
        PlainParts(server, a);
        Assoc(server.Plain([a[0]]), server.Plain(a[1..]), Decode(server, b).value);
      }
    }
  }

  /** A text without `%` is read as it is written, but for its `+`s. */
  lemma DecodePlain(server: Server, text: string)
    requires NoPercent(text)
    ensures Decode(server, text) == Some(server.Plain(text))
  {
    DecodePast(server, text, "");
    assert text + "" == text && server.Plain(text) + "" == server.Plain(text);
  }

  lemma PlainSame(server: Server, s: string)
    requires server.plus ==> NoPlus(s)
    ensures server.Plain(s) == s
  {
    if server.plus {
      BlankedSame(s);
    }
  }

  // ---------- decoding and filling ----------

  /** Every `%` starts an escape, and none stands for a brace. */
  predicate BracesWritten(server: Server, text: string)
    decreases |text|
  {
    text == ""
    || (&& Piece(server, text).Some?
        && (text[0] == '%' ==> NoBrace(Piece(server, text).value.0))
        && BracesWritten(server, text[Piece(server, text).value.1..]))
  }

  /** What can fill a placeholder: something, which the server reads as it is written. */
  predicate Fillers(server: Server, values: Values) {
    forall name :: name in values ==>
      values[name] != "" && NoPercent(values[name]) && (server.plus ==> NoPlus(values[name]))
  }

  /** A run of escapes ends where no escape of that kind follows. */
  lemma {:induction false} HighRunEnds(text: string, rest: string)
    requires var n := HighRun(text); n > 0 && !(Escape(rest) && Byte(rest) >= 128)
    ensures HighRun(text[..HighRun(text)] + rest) == HighRun(text)
    decreases |text|
  {
    var n := HighRun(text);
    var later := text[3..];
    var all := text[..n] + rest;
    assert all[0] == text[0] && all[1] == text[1] && all[2] == text[2];
    assert all[3..] == later[..n - 3] + rest;
    if n > 3 {
      HighRunEnds(later, rest);
    } else {
      assert later[..0] + rest == rest;
    }
  }

  lemma {:induction false} HighRunStops(text: string)
    ensures var rest := text[HighRun(text)..]; !(Escape(rest) && Byte(rest) >= 128)
    decreases |text|
  {
    if HighRun(text) > 0 {
      HighRunStops(text[3..]);
      assert text[3..][HighRun(text[3..])..] == text[HighRun(text)..];
    }
  }

  /** Filled, a text starts with an escape only where it does in the template. */
  lemma NoNewEscape(server: Server, text: string, values: Values)
    requires Format(text, values).Some? && Fillers(server, values) && BracesWritten(server, text)
    requires !(Escape(text) && Byte(text) >= 128)
    ensures var filled := Format(text, values).value; !(Escape(filled) && Byte(filled) >= 128)
  {
    if text != "" {
      if text[0] == '%' {
        assert NoBrace(text[..3]) && text == text[..3] + text[3..];
        FormatPast(text[..3], text[3..], values);
      } else {
        var (x, n) := Step(text, values).value;
        StepReads(text, values);
        assert x != "" && NoPercent(x);
        assert (x + Format(text[n..], values).value)[0] == x[0];
      }
    }
  }

  /** The first piece of an escaped text is that of what it is filled to. */
  lemma PieceFilled(server: Server, text: string, values: Values)
    requires text != "" && text[0] == '%' && Format(text, values).Some? && Fillers(server, values) && BracesWritten(server, text)
    ensures var n := Piece(server, text).value.1; var rest := Format(text[n..], values);
            rest.Some? && Format(text, values) == Some(text[..n] + rest.value)
            && Piece(server, text[..n] + rest.value) == Piece(server, text)
  {
    var n := Piece(server, text).value.1;
    assert NoBrace(text[..n]) && text == text[..n] + text[n..];
    FormatPast(text[..n], text[n..], values);
    var rest := Format(text[n..], values).value;
    if HighRun(text) > 0 {
      HighRunStops(text);
      NoNewEscape(server, text[n..], values);
      HighRunEnds(text, rest);
      assert (text[..n] + rest)[..n] == text[..n];
    } else {
      assert (text[..3] + rest)[1] == text[1] && (text[..3] + rest)[2] == text[2];
    }
  }

  /** Decoding what a template is filled to is filling what it is decoded to. */
  predicate Commutes(server: Server, text: string, values: Values) {
    && Format(text, values).Some? && Decode(server, text).Some? && Format(Decode(server, text).value, values).Some?
    && Decode(server, Format(text, values).value) == Format(Decode(server, text).value, values)
  }

  lemma {:induction false} DecodeFilled(server: Server, text: string, values: Values)
    requires Format(text, values).Some? && Fillers(server, values) && BracesWritten(server, text)
    ensures Commutes(server, text, values)
    decreases |text|
  {
    if text != "" {
      if text[0] == '%' {
        var n := Piece(server, text).value.1;
        PieceFilled(server, text, values);
        DecodeFilled(server, text[n..], values);
        EscapeFilled(server, text, values);
      } else {
        var (x, n) := Step(text, values).value;
        StepReads(text, values);
        assert text == text[..n] + text[n..];
        WrittenPast(server, text[..n], text[n..]);
        DecodeFilled(server, text[n..], values);
        StepFilled(server, text[..n], text[n..], values, x);
      }
    }
  }

  lemma EscapeFilled(server: Server, text: string, values: Values)
    requires text != "" && text[0] == '%' && Format(text, values).Some? && Fillers(server, values) && BracesWritten(server, text)
    requires Commutes(server, text[Piece(server, text).value.1..], values)
    ensures Commutes(server, text, values)
  {
    var (p, n) := Piece(server, text).value;
    PieceFilled(server, text, values);
    var rest := Format(text[n..], values).value;
    assert (text[..n] + rest)[n..] == rest;
    FormatPast(p, Decode(server, text[n..]).value, values);
  }

  /** A step is the same step whatever follows it, and decoded. */
  lemma PlainStep(server: Server, head: string, rest: string, other: string, values: Values, x: string)
    requires head != "" && Step(head + rest, values) == Some((x, |head|)) && Fillers(server, values)
    ensures Step(server.Plain(head) + other, values) == Some((server.Plain(x), |head|))
  {
    if server.plus {
      assert (head + rest)[..|head|] == head;
      BlankedStep(head + rest, other, values);
    } else {
      StepLocal(head, rest, values);
      StepLocal(head, other, values);
    }
  }

  lemma StepFilled(server: Server, head: string, rest: string, values: Values, x: string)
    requires head != "" && NoPercent(head) && NoPercent(x) && Step(head + rest, values) == Some((x, |head|))
    requires Fillers(server, values) && Commutes(server, rest, values)
    ensures Commutes(server, head + rest, values)
  {
    DecodePast(server, head, rest);
    DecodePast(server, x, Format(rest, values).value);
    FormatOnce(head, rest, values, x);
    PlainStep(server, head, rest, Decode(server, rest).value, values, x);
    FormatOnce(server.Plain(head), Decode(server, rest).value, values, server.Plain(x));
  }

  lemma {:induction false} WrittenPast(server: Server, a: string, b: string)
    requires NoPercent(a) && BracesWritten(server, a + b)
    ensures BracesWritten(server, b)
  {
    if a == "" {
      assert a + b == b;
    } else {
      assert (a + b)[0] == a[0] && (a + b)[1..] == a[1..] + b;
      WrittenPast(server, a[1..], b);
    }
  }

  // ---------- what the server keeps ----------

  /** A date the server reads as it is written. */
  predicate SentDate(server: Server, date: string) {
    DateText(date) && (server.plus ==> NoPlus(date))
  }

  lemma BoundsFill(server: Server, start: string, end: string)
    requires SentDate(server, start) && SentDate(server, end)
    ensures Fillers(server, Bounds(start, end)) && Dates(Bounds(start, end))
  {
  }

  /**
   The guard is sound of a template whose decoding it would accept too and holds no `"` outside strings, when no escape
   stands for a brace: however the server reads the filter, an entity that satisfies it has its date field within the
   bounds.
   */
  lemma DecodedWindowKept(
    alnum: char -> bool, server: Server, text: string, plain: string, field: string, start: string, end: string,
    filled: string, read: string, e: Expr, entity: Entity)
    requires BracesWritten(server, text) && Decode(server, text) == Some(plain) && NoJson(plain)
    requires CheckODataTerms(alnum, plain, field) == Accepted && DateField(field)
    requires SentDate(server, start) && SentDate(server, end) && Format(text, Bounds(start, end)) == Some(filled)
    requires Decode(server, filled) == Some(read) && Parses(read, e)
    requires entity.literal(start).Number? && entity.literal(end).Number? && entity.Satisfies(e)
    ensures Conjunction(e) && entity.property(field).Number?
    ensures entity.literal(start).n <= entity.property(field).n <= entity.literal(end).n
  {
    BoundsFill(server, start, end);
    DecodeFilled(server, text, Bounds(start, end));
    TermsMakeConjunction(alnum, plain, field, Bounds(start, end), read, e);
    TermsKeepWindow(alnum, plain, field, start, end, read, e, entity);
  }

  lemma {:induction false} PlainIsWritten(server: Server, text: string)
    requires NoPercent(text)
    ensures BracesWritten(server, text)
  {
    if text != "" {
      PlainIsWritten(server, text[1..]);
    }
  }

  /** What the server decodes of a template without `%` holds no more `or` and no more `"` in the open. */
  lemma PlainIsOrFree(alnum: char -> bool, server: Server, text: string)
    requires OrFree(alnum, text) && NoJson(text)
    ensures OrFree(alnum, server.Plain(text)) && NoJson(server.Plain(text))
  {
    if server.plus {
      BlankedScan(TOP, text);
      BlankedOr(alnum, MaskFrom(ODATA, TOP, text));
      BlankedOpen(NoMark, TOP, text);
    }
  }

  /** An accepted template without `%` and without JSON strings fills to a filter that no server reads as an `or`. */
  lemma AcceptedIsConjunction(
    alnum: char -> bool, server: Server, text: string, field: string, start: string, end: string, filled: string,
    read: string, e: Expr)
    requires CheckODataWindow(alnum, text, field) == Accepted && NoPercent(text) && NoJson(text)
    requires SentDate(server, start) && SentDate(server, end)
    requires Format(text, Bounds(start, end)) == Some(filled) && Decode(server, filled) == Some(read) && Parses(read, e)
    ensures Conjunction(e)
  {
    BoundsFill(server, start, end);
    PlainIsWritten(server, text);
    DecodePlain(server, text);
    DecodeFilled(server, text, Bounds(start, end));
    PlainIsOrFree(alnum, server, text);
    OrFreeIsConjunction(alnum, server.Plain(text), Bounds(start, end), read, e);
  }

  /**
   The guard is sound of a template without `%` and without JSON strings: whatever bounds fill it and however the server
   reads the filter, an entity that satisfies it has its date field within the bounds.
   */
  lemma ODataWindowKept(
    alnum: char -> bool, server: Server, text: string, field: string, start: string, end: string, filled: string,
    read: string, e: Expr, entity: Entity)
    requires CheckODataWindow(alnum, text, field) == Accepted && DateField(field) && NoPercent(text) && NoJson(text)
    requires SentDate(server, start) && SentDate(server, end)
    requires Format(text, Bounds(start, end)) == Some(filled) && Decode(server, filled) == Some(read) && Parses(read, e)
    requires entity.literal(start).Number? && entity.literal(end).Number? && entity.Satisfies(e)
    ensures entity.property(field).Number?
    ensures entity.literal(start).n <= entity.property(field).n <= entity.literal(end).n
  {
    PlainIsWritten(server, text);
    DecodePlain(server, text);
    PlainIsAccepted(alnum, server, text, field);
    DecodedWindowKept(alnum, server, text, server.Plain(text), field, start, end, filled, read, e, entity);
  }

  lemma PlainIsAccepted(alnum: char -> bool, server: Server, text: string, field: string)
    requires CheckODataTerms(alnum, text, field) == Accepted && DateField(field) && NoJson(text)
    ensures CheckODataTerms(alnum, server.Plain(text), field) == Accepted && NoJson(server.Plain(text))
  {
    PlainIsOrFree(alnum, server, text);
    if server.plus {
      AcceptedBlanked(alnum, text, field);
    }
  }
}
