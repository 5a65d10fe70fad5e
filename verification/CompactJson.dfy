/**
 The compactor of the prompt-snapshot store: a three-state lexer that drops the
 whitespace between JSON tokens and keeps everything else, so that the bytes a
 generation was hashed over can be recovered from its pretty-printed file.
 */
module CompactJson {
  import opened Json

  /** Where the lexer stands: between tokens, inside a string literal, or just after a backslash. */
  datatype Mode = Between | InString | Escaped

  predicate IsJsonSpace(c: char) {
    c == ' ' || c == '\t' || c == '\n' || c == '\r'
  }

  function Next(mode: Mode, c: char): Mode {
    match mode
    case Between => if c == '"' then InString else Between
    case InString => if c == '\\' then Escaped else if c == '"' then Between else InString
    case Escaped => InString
  }

  function After(mode: Mode, text: string): Mode
    decreases text
  {
    if text == [] then mode else After(Next(mode, text[0]), text[1..])
  }

  function Kept(mode: Mode, text: string): string
    decreases text
  {
    if text == [] then []
    else (if mode == Between && IsJsonSpace(text[0]) then [] else [text[0]]) + Kept(Next(mode, text[0]), text[1..])
  }

  /** Reading `text` in `mode` writes `out` and ends in `end`. */
  ghost predicate Reads(mode: Mode, text: string, out: string, end: Mode) {
    Kept(mode, text) == out && After(mode, text) == end
  }

  lemma {:induction false} ReadsConcat(mode: Mode, a: string, outA: string, mid: Mode, b: string, outB: string,
      end: Mode)
    requires Reads(mode, a, outA, mid) && Reads(mid, b, outB, end)
    ensures Reads(mode, a + b, outA + outB, end)
    decreases a
  {
    if a == [] {
      assert a + b == b;
    } else {
      var rest := Kept(Next(mode, a[0]), a[1..]);
      ReadsConcat(Next(mode, a[0]), a[1..], rest, mid, b, outB, end);
      assert (a + b)[1..] == a[1..] + b;
    }
  }

  lemma ReadsSnoc(mode: Mode, text: string, c: char)
    ensures Kept(mode, text + [c])
         == Kept(mode, text) + (if After(mode, text) == Between && IsJsonSpace(c) then [] else [c])
    ensures After(mode, text + [c]) == Next(After(mode, text), c)
  {
    var kept := if After(mode, text) == Between && IsJsonSpace(c) then [] else [c];
    assert Reads(After(mode, text), [c], kept, Next(After(mode, text), c)) by {
      assert [c][1..] == [];
    }
    ReadsConcat(mode, text, Kept(mode, text), After(mode, text), [c], kept, Next(After(mode, text), c));
  }

  method Compacted(text: string) returns (out: string)
    ensures out == Kept(Between, text)
  {
    out := [];
    var inString, escaped := false, false;
    for i := 0 to |text|
      invariant After(Between, text[..i]) == if !inString then Between else if escaped then Escaped else InString
      invariant out == Kept(Between, text[..i])
      invariant escaped ==> inString
    {
      var c := text[i];
      ReadsSnoc(Between, text[..i], c);
      assert text[..i + 1] == text[..i] + [c];
      if inString {
        out := out + [c];
        if escaped {
          escaped := false;
        } else if c == '\\' {
          escaped := true;
        } else if c == '"' {
          inString := false;
        }
      } else if c == '"' {
        inString := true;
        out := out + [c];
      } else if !IsJsonSpace(c) {
        out := out + [c];
      }
    }
    assert text[..|text|] == text;
  }

  /** Compacting twice is compacting once, whatever the text. */
  lemma {:induction false} CompactionIdempotent(mode: Mode, text: string)
    ensures Kept(mode, Kept(mode, text)) == Kept(mode, text)
    ensures After(mode, Kept(mode, text)) == After(mode, text)
    decreases text
  {
    if text != [] {
      var c, rest := text[0], Kept(Next(mode, text[0]), text[1..]);
      CompactionIdempotent(Next(mode, c), text[1..]);
      if mode == Between && IsJsonSpace(c) {
        assert Kept(mode, text) == rest;
      } else {
        assert Kept(mode, text) == [c] + rest;
        assert ([c] + rest)[1..] == rest;
      }
    }
  }

  /** The text without blanks, tabs, line feeds and carriage returns. */
  function Squeezed(text: string): string
    decreases text
  {
    if text == [] then [] else (if text[0] in " \t\n\r" then [] else [text[0]]) + Squeezed(text[1..])
  }

  /** Outside string literals exactly the four JSON blanks go; inside them nothing does. */
  lemma {:induction false} BlanksOnlyOutside(text: string)
    requires '"' !in text
    ensures Kept(Between, text) == Squeezed(text)
    ensures '\\' !in text ==> Kept(InString, text) == text
    decreases text
  {
    if text != [] {
      BlanksOnlyOutside(text[1..]);
    }
  }

  // ---------------------------------------------------------------------------
  // Every token survives, every gap between tokens vanishes.
  // ---------------------------------------------------------------------------

  /** The inside of a string literal (section 7 of RFC 8259): no bare quote, no dangling backslash. */
  predicate IsStringBody(body: string) {
    || body == []
    || (body[0] != '"' && body[0] != '\\' && IsStringBody(body[1..]))
    || (|body| >= 2 && body[0] == '\\' && IsStringBody(body[2..]))
  }

  predicate IsPlain(text: string) {
    forall i | 0 <= i < |text| :: text[i] != '"' && !IsJsonSpace(text[i])
  }

  predicate IsBlank(text: string) {
    forall i | 0 <= i < |text| :: IsJsonSpace(text[i])
  }

  datatype Token = Word(text: string) | Literal(body: string) {
    /** A word is punctuation, a number or a bare name; a literal is a quoted string. */
    predicate Valid() {
      match this
      case Word(text) => IsPlain(text)
      case Literal(body) => IsStringBody(body)
    }

    function Spelling(): string {
      match this
      case Word(text) => text
      case Literal(body) => ['"'] + body + ['"']
    }
  }

  /** A document: tokens with a gap before each and one after the last. */
  function Layout(tokens: seq<Token>, gaps: seq<string>): string
    requires |gaps| == |tokens| + 1
  {
    if tokens == [] then gaps[0] else gaps[0] + tokens[0].Spelling() + Layout(tokens[1..], gaps[1..])
  }

  function Spellings(tokens: seq<Token>): string {
    if tokens == [] then [] else tokens[0].Spelling() + Spellings(tokens[1..])
  }

  lemma {:induction false} BlankVanishes(text: string)
    requires IsBlank(text)
    ensures Reads(Between, text, [], Between)
  {
    if text != [] {
      BlankVanishes(text[1..]);
    }
  }

  lemma {:induction false} PlainSurvives(text: string)
    requires IsPlain(text)
    ensures Reads(Between, text, text, Between)
  {
    if text != [] {
      PlainSurvives(text[1..]);
      assert [text[0]] + text[1..] == text;
    }
  }

  lemma {:induction false} BodySurvives(body: string)
    requires IsStringBody(body)
    ensures Reads(InString, body, body, InString)
  {
    if body == [] {
    } else if body[0] != '"' && body[0] != '\\' && IsStringBody(body[1..]) {
      BodySurvives(body[1..]);
      assert [body[0]] + body[1..] == body;
    } else {
      BodySurvives(body[2..]);
      EscapedPairSurvives(body);
    }
  }

  lemma EscapedPairSurvives(body: string)
    requires |body| >= 2 && body[0] == '\\' && Reads(InString, body[2..], body[2..], InString)
    ensures Reads(InString, body, body, InString)
  {
    assert body[1..][1..] == body[2..];
    assert Kept(InString, body) == [body[0]] + ([body[1]] + Kept(InString, body[2..]));
    assert [body[0]] + ([body[1]] + body[2..]) == body;
  }

  lemma QuotedSurvives(body: string)
    requires IsStringBody(body)
    ensures Reads(Between, ['"'] + body + ['"'], ['"'] + body + ['"'], Between)
  {
    BodySurvives(body);
    assert ['"'][1..] == [];
    assert Reads(Between, ['"'], ['"'], InString) && Reads(InString, ['"'], ['"'], Between);
    ReadsConcat(Between, ['"'], ['"'], InString, body, body, InString);
    ReadsConcat(Between, ['"'] + body, ['"'] + body, InString, ['"'], ['"'], Between);
  }

  /** Whatever blank gaps a document is laid out with, compacting leaves exactly its tokens. */
  lemma {:induction false} LayoutCompacts(tokens: seq<Token>, gaps: seq<string>)
    requires |gaps| == |tokens| + 1
    requires forall i | 0 <= i < |tokens| :: tokens[i].Valid()
    requires forall i | 0 <= i < |gaps| :: IsBlank(gaps[i])
    ensures Reads(Between, Layout(tokens, gaps), Spellings(tokens), Between)
  {
    BlankVanishes(gaps[0]);
    if tokens != [] {
      var word := tokens[0].Spelling();
      if tokens[0].Word? {
        PlainSurvives(word);
      } else {
        QuotedSurvives(tokens[0].body);
      }
      LayoutCompacts(tokens[1..], gaps[1..]);
      ReadsConcat(Between, gaps[0], [], Between, word, word, Between);
      ReadsConcat(Between, gaps[0] + word, [] + word, Between, Layout(tokens[1..], gaps[1..]), Spellings(tokens[1..]),
        Between);
      assert [] + word == word;
    }
  }

  // ---------------------------------------------------------------------------
  // The printers of `serde_json`.
  // ---------------------------------------------------------------------------

  lemma {:induction false} EscapeIsStringBody(s: string)
    ensures IsStringBody(Escape(s))
  {
    if s != [] {
      EscapeIsStringBody(s[1..]);
      EscapedBody(s[0], Escape(s[1..]));
    }
  }

  lemma EscapedBody(c: char, rest: string)
    requires IsStringBody(rest)
    ensures IsStringBody(EscapeChar(c) + rest)
  {
    var head := EscapeChar(c);
    if |head| == 1 {
      assert (head + rest)[1..] == rest;
    } else if |head| == 2 {
      assert (head + rest)[2..] == rest;
    } else {
      PlainPrefix(head[2..], rest);
      assert (head + rest)[2..] == head[2..] + rest;
    }
  }

  lemma {:induction false} PlainPrefix(prefix: string, rest: string)
    requires forall i | 0 <= i < |prefix| :: prefix[i] != '"' && prefix[i] != '\\'
    requires IsStringBody(rest)
    ensures IsStringBody(prefix + rest)
  {
    if prefix == [] {
      assert prefix + rest == rest;
    } else {
      PlainPrefix(prefix[1..], rest);
      assert (prefix + rest)[1..] == prefix[1..] + rest;
    }
  }

  lemma QuoteSurvives(s: string)
    ensures Reads(Between, Quote(s), Quote(s), Between)
  {
    EscapeIsStringBody(s);
    QuotedSurvives(Escape(s));
  }

  lemma {:induction false} IndentIsBlank(depth: nat)
    ensures IsBlank(Indent(depth))
  {
    if depth > 0 {
      IndentIsBlank(depth - 1);
    }
  }

  /** A line break and its indentation vanish. */
  lemma BreakVanishes(depth: nat)
    ensures Reads(Between, "\n" + Indent(depth), [], Between)
  {
    IndentIsBlank(depth);
    BlankVanishes("\n" + Indent(depth));
  }

  lemma ReadsThree(a: string, outA: string, b: string, outB: string, c: string, outC: string)
    requires Reads(Between, a, outA, Between) && Reads(Between, b, outB, Between) && Reads(Between, c, outC, Between)
    ensures Reads(Between, a + b + c, outA + outB + outC, Between)
  {
    ReadsConcat(Between, a, outA, Between, b, outB, Between);
    ReadsConcat(Between, a + b, outA + outB, Between, c, outC, Between);
  }

  lemma ScalarSurvives(v: Value)
    requires !v.Arr? && !v.Obj? && WellSpelled(v)
    ensures Reads(Between, Scalar(v), Scalar(v), Between)
  {
    if v.Str? {
      QuoteSurvives(v.text);
    } else {
      PlainSurvives(Scalar(v));
    }
  }

  /** Compacting the pretty-printed text of any value, at any depth, gives its compact text. */
  lemma {:induction false} PrettyCompacts(v: Value, depth: nat)
    requires WellSpelled(v)
    ensures Reads(Between, Pretty(v, depth), Compact(v), Between)
    decreases v, 1
  {
    match v
    case Arr(items) =>
      PrettyItemsCompact(items, depth + 1);
      ArrayCompacts(items, depth);
    case Obj(fields) =>
      PrettyFieldsCompact(fields, depth + 1);
      ObjectCompacts(fields, depth);
    case _ => ScalarSurvives(v);
  }

  lemma ArrayCompacts(items: seq<Value>, depth: nat)
    requires Reads(Between, PrettyItems(items, depth + 1), CompactItems(items), Between)
    ensures Reads(Between, Pretty(Arr(items), depth), Compact(Arr(items)), Between)
  {
    ContainerCompacts("[", PrettyItems(items, depth + 1), CompactItems(items), depth, "]");
  }

  lemma ObjectCompacts(fields: seq<Field>, depth: nat)
    requires Reads(Between, PrettyFields(fields, depth + 1), CompactFields(fields), Between)
    ensures Reads(Between, Pretty(Obj(fields), depth), Compact(Obj(fields)), Between)
  {
    ContainerCompacts("{", PrettyFields(fields, depth + 1), CompactFields(fields), depth, "}");
  }

  lemma ContainerCompacts(open: string, inner: string, out: string, depth: nat, close: string)
    requires IsPlain(open) && IsPlain(close)
    requires Reads(Between, inner, out, Between)
    ensures Reads(Between, open + inner + ("\n" + Indent(depth)) + close, open + out + close, Between)
    ensures Reads(Between, open + close, open + close, Between)
  {
    var gap := "\n" + Indent(depth);
    PlainSurvives(open);
    PlainSurvives(close);
    BreakVanishes(depth);
    ReadsThree(open, open, inner, out, gap, []);
    ReadsConcat(Between, open + inner + gap, open + out + [], Between, close, close, Between);
    assert open + out + [] == open + out;
    ReadsConcat(Between, open, open, Between, close, close, Between);
  }

  lemma {:induction false} PrettyItemsCompact(items: seq<Value>, depth: nat)
    requires forall i | 0 <= i < |items| :: WellSpelled(items[i])
    ensures Reads(Between, PrettyItems(items, depth), CompactItems(items), Between)
    decreases items, 0
  {
    if items != [] {
      var gap, head := "\n" + Indent(depth), Compact(items[0]);
      PrettyCompacts(items[0], depth);
      BreakVanishes(depth);
      ReadsConcat(Between, gap, [], Between, Pretty(items[0], depth), head, Between);
      assert [] + head == head;
      if |items| > 1 {
        PrettyItemsCompact(items[1..], depth);
        PlainSurvives(",");
        ReadsThree(gap + Pretty(items[0], depth), head, ",", ",", PrettyItems(items[1..], depth),
          CompactItems(items[1..]));
      }
    }
  }

  lemma {:induction false} PrettyFieldsCompact(fields: seq<Field>, depth: nat)
    requires forall i | 0 <= i < |fields| :: WellSpelled(fields[i].value)
    ensures Reads(Between, PrettyFields(fields, depth), CompactFields(fields), Between)
    decreases fields, 0
  {
    if fields != [] {
      var prefix := "\n" + Indent(depth) + Quote(fields[0].name) + ": ";
      var head := Quote(fields[0].name) + ":" + Compact(fields[0].value);
      PrettyCompacts(fields[0].value, depth);
      NameCompacts(fields[0].name, depth);
      ReadsConcat(Between, prefix, Quote(fields[0].name) + ":", Between, Pretty(fields[0].value, depth),
        Compact(fields[0].value), Between);
      if |fields| > 1 {
        PrettyFieldsCompact(fields[1..], depth);
        PlainSurvives(",");
        ReadsThree(prefix + Pretty(fields[0].value, depth), head, ",", ",", PrettyFields(fields[1..], depth),
          CompactFields(fields[1..]));
      }
    }
  }

  lemma NameCompacts(name: string, depth: nat)
    ensures Reads(Between, "\n" + Indent(depth) + Quote(name) + ": ", Quote(name) + ":", Between)
  {
    BreakVanishes(depth);
    QuoteSurvives(name);
    assert Reads(Between, ": ", ":", Between) by {
      PlainSurvives(":");
      BlankVanishes(" ");
      ReadsConcat(Between, ":", ":", Between, " ", [], Between);
    }
    ReadsThree("\n" + Indent(depth), [], Quote(name), Quote(name), ": ", ":");
    assert [] + Quote(name) + ":" == Quote(name) + ":";
  }
}
