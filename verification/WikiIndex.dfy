/**
 The generated index: printed from the parsed entries, and re-read on the next
 run to carry over the lines of pages that no longer parse.
 */
module WikiIndex {
  import opened Basics
  import opened IndexRows
  import opened Sorting
  import opened TextLines

  const UNCATEGORIZED: string := "Uncategorized"

  datatype Entry = Entry(title: string, id: string, description: Option<string>, entryType: Option<string>)

  /** The first place where `pattern` stands in `s`, or the length of `s`. */
  function Find(s: string, pattern: string): (k: nat)
    ensures k <= |s|
  {
    if s == [] || StartsWith(s, pattern) then 0 else 1 + Find(s[1..], pattern)
  }

  /** `str::split_once` on a non-empty pattern. */
  function SplitOnce(s: string, pattern: string): Option<(string, string)> {
    var k := Find(s, pattern);
    if k + |pattern| <= |s| && k < |s| then Some((s[..k], s[k + |pattern|..])) else None
  }

  /** Title and target of an entry line `* [Title](/target.md)...`. */
  function ParseEntry(line: string): Option<(string, string)> {
    var text := TrimStart(line);
    if !StartsWith(text, "* [") then None
    else
      match SplitOnce(text[3..], "](/")
      case None => None
      case Some((title, after)) =>
        match SplitOnce(after, ".md)")
        case None => None
        case Some((target, _)) => if target == [] then None else Some((title, target))
  }

  function EntryLine(e: Entry): string {
    "* [" + e.title + "](/" + e.id + ".md)" +
    (match e.description
     case Some(text) => if Trim(text) != [] then " - " + Trim(text) else ""
     case None => "")
  }

  function EntryRow(e: Entry): Placed {
    Placed(if e.entryType.Some? then e.entryType.value else UNCATEGORIZED, Row(Lower(e.title), EntryLine(e)))
  }

  function EntryRows(entries: seq<Entry>): seq<Placed> {
    Map(entries, EntryRow)
  }

  /** One old line: a heading, an entry line with its sort key and target, or anything else. */
  function ReadLine(raw: string): Token {
    var line := TrimEnd(raw);
    if StartsWith(line, "## ") then Heading(line[3..])
    else
      match ParseEntry(line)
      case Some((title, target)) => Listed(Row(Lower(title), line), target)
      case None => Other
  }

  function CarriedRows(existing: string, failed: set<string>): seq<Placed> {
    Carry(ReadLine, Lines(existing), UNCATEGORIZED, {}, failed)
  }

  // -- Printing ---------------------------------------------------------------------

  /** The version block and the title. */
  const HEAD: seq<string> := ["---", "okf_version: \"0.2\"", "---", "", "# Wiki Index", ""]

  /** How every index opens. */
  const OPENING: string := "---\n" + "okf_version: \"0.2\"\n" + "---\n" + "\n" + "# Wiki Index\n" + "\n"

  const NOTHING_YET: string := "_No entries yet._"

  function HeadingLine(section: string): string {
    "## " + section
  }

  function Block(section: string, rows: seq<Row>): seq<string> {
    if rows == [] then [] else [HeadingLine(section), ""] + LinesOf(Arranged(rows)) + [""]
  }

  function BodyLines(groups: Groups, keys: seq<string>): seq<string>
    requires forall k | k in keys :: k in groups
  {
    if keys == [] then [] else Block(keys[0], groups[keys[0]]) + BodyLines(groups, keys[1..])
  }

  function PopNewlines(text: string): string {
    if |text| >= 2 && text[|text| - 1] == '\n' && text[|text| - 2] == '\n' then PopNewlines(text[..|text| - 1])
        else text
  }

  function RenderGroups(groups: Groups): string {
    if forall k | k in groups :: groups[k] == [] then Unlines(HEAD) + (NOTHING_YET + "\n")
    else PopNewlines(Unlines(HEAD) + Unlines(BodyLines(groups, SortedKeys(groups.Keys))))
  }

  /** The index of `entries`, with the lines of `failed` pages kept from the existing one. */
  function Index(entries: seq<Entry>, existing: string, failed: set<string>): string {
    RenderGroups(Grouped(EntryRows(entries) + CarriedRows(existing, failed)))
  }

  // -- The loops --------------------------------------------------------------------

  method EntryGroups(entries: seq<Entry>) returns (groups: Groups)
    ensures groups == Grouped(EntryRows(entries))
  {
    groups := map[];
    assert entries[..0] == [];
    for i := 0 to |entries|
      invariant groups == Grouped(EntryRows(entries[..i]))
    {
      MapLast(entries, i, EntryRow);
      GroupedOne(EntryRows(entries[..i]), EntryRow(entries[i]));
      groups := Push(groups, EntryRow(entries[i]));
    }
    assert entries[..|entries|] == entries;
  }

  method PushLines(text: string, rows: seq<Row>) returns (out: string)
    ensures out == text + Unlines(LinesOf(rows))
  {
    out := text;
    for i := 0 to |rows|
      invariant out + Unlines(LinesOf(rows[i..])) == text + Unlines(LinesOf(rows))
    {
      assert rows[i..][1..] == rows[i + 1..];
      var line := rows[i].line;
      assert out + (line + "\n" + Unlines(LinesOf(rows[i + 1..])))
          == (out + line + "\n") + Unlines(LinesOf(rows[i + 1..]));
      out := out + line + "\n";
    }
  }

  lemma BlockText(text: string, heading: string, lines: seq<string>)
    ensures text + heading + "\n\n" + Unlines(lines) + "\n" == text + Unlines([heading, ""] + lines + [""])
  {
    UnlinesConcat([heading, ""] + lines, [""]);
    UnlinesConcat([heading, ""], lines);
    assert Unlines([""]) == "\n" by {
      assert [""][1..] == [];
    }
    assert Unlines([heading, ""]) == heading + "\n" + "\n" by {
      assert [heading, ""][1..] == [""];
    }
    assert text + heading + "\n\n" == text + (heading + "\n" + "\n");
    assert (text + (heading + "\n" + "\n")) + Unlines(lines) + "\n"
        == text + (((heading + "\n" + "\n") + Unlines(lines)) + "\n");
  }

  method PushBlock(text: string, section: string, rows: seq<Row>) returns (out: string)
    ensures out == text + Unlines(Block(section, rows))
  {
    if rows == [] {
      return text;
    }
    out := text + HeadingLine(section) + "\n\n";
    out := PushLines(out, Arranged(rows));
    out := out + "\n";
    BlockText(text, HeadingLine(section), LinesOf(Arranged(rows)));
  }

  lemma BodyLinesStep(groups: Groups, keys: seq<string>, i: nat)
    requires forall k | k in keys :: k in groups
    requires i < |keys|
    ensures BodyLines(groups, keys[i..]) == Block(keys[i], groups[keys[i]]) + BodyLines(groups, keys[i + 1..])
  {
    assert keys[i..][1..] == keys[i + 1..];
  }

  lemma Joined(text: string, a: seq<string>, b: seq<string>)
    ensures text + Unlines(a + b) == (text + Unlines(a)) + Unlines(b)
  {
    UnlinesConcat(a, b);
  }

  method PushBody(text: string, groups: Groups, keys: seq<string>) returns (out: string)
    requires forall k | k in keys :: k in groups
    ensures out == text + Unlines(BodyLines(groups, keys))
  {
    out := text;
    for i := 0 to |keys|
      invariant out + Unlines(BodyLines(groups, keys[i..])) == text + Unlines(BodyLines(groups, keys))
    {
      BodyLinesStep(groups, keys, i);
      Joined(out, Block(keys[i], groups[keys[i]]), BodyLines(groups, keys[i + 1..]));
      out := PushBlock(out, keys[i], groups[keys[i]]);
    }
  }

  method PopBlankLines(text: string) returns (out: string)
    ensures out == PopNewlines(text)
  {
    out := text;
    while |out| >= 2 && out[|out| - 1] == '\n' && out[|out| - 2] == '\n'
      invariant PopNewlines(out) == PopNewlines(text)
    {
      out := out[..|out| - 1];
    }
  }

  /** `render_index_groups`: the sections in key order, then the blank line at the end taken off. */
  method RenderIndexGroups(groups: Groups) returns (out: string)
    ensures out == RenderGroups(groups)
  {
    if forall k | k in groups :: groups[k] == [] {
      return Unlines(HEAD) + (NOTHING_YET + "\n");
    }
    out := PushBody(Unlines(HEAD), groups, SortedKeys(groups.Keys));
    out := PopBlankLines(out);
  }

  /** Where the pass over the old lines stands. */
  datatype Pass = Pass(groups: Groups, current: string, carried: set<string>)

  ghost predicate PassKeeps(
    read: Reader, pass: Pass, rows: seq<Placed>, lines: seq<string>, failed: set<string>, whole: seq<Placed>) {
    pass.groups == Grouped(rows) && rows + Carry(read, lines, pass.current, pass.carried, failed) == whole
  }

  method PassLine(
    read: Reader, pass: Pass, ghost rows: seq<Placed>, lines: seq<string>, failed: set<string>,
      ghost whole: seq<Placed>)
    returns (next: Pass, ghost more: seq<Placed>)
    requires lines != [] && PassKeeps(read, pass, rows, lines, failed, whole)
    ensures PassKeeps(read, next, more, lines[1..], failed, whole)
  {
    next, more := pass, rows;
    match read(lines[0]) {
      case Heading(section) => next := pass.(current := section);
      case Listed(row, target) =>
        if target in failed && target !in pass.carried {
          var placed := Placed(pass.current, row);
          Regroup(rows, [placed], Carry(read, lines[1..], pass.current, pass.carried + {target}, failed));
          GroupedOne(rows, placed);
          next, more := Pass(Push(pass.groups, placed), pass.current, pass.carried + {target}), rows + [placed];
        }
      case Other =>
    }
  }

  method PassLines(read: Reader, groups: Groups, ghost rows: seq<Placed>, lines: seq<string>, failed: set<string>)
    returns (out: Groups)
    requires groups == Grouped(rows)
    ensures out == Grouped(rows + Carry(read, lines, UNCATEGORIZED, {}, failed))
  {
    var pass := Pass(groups, UNCATEGORIZED, {});
    ghost var seen, whole := rows, rows + Carry(read, lines, UNCATEGORIZED, {}, failed);
    for i := 0 to |lines|
      invariant PassKeeps(read, pass, seen, lines[i..], failed, whole)
    {
      pass, seen := PassLine(read, pass, seen, lines[i..], failed, whole);
      assert lines[i..][1..] == lines[i + 1..];
    }
    assert lines[|lines|..] == [];
    assert seen + [] == whole && seen + [] == seen;
    out := pass.groups;
  }

  /** `render_index_preserving`: one pass over the old lines that keeps the section and the carried targets. */
  method RenderIndexPreserving(entries: seq<Entry>, existing: string, failed: set<string>) returns (out: string)
    ensures out == Index(entries, existing, failed)
    // Re-reading finds plain entries under the headings of their types, those without a type under
    // "Uncategorized", and beside them what was carried over.
    ensures AllPlain(entries) ==> forall targets, section, row ::
        multiset(Scan(ReadLine, Lines(out), "Uncategorized", targets))[Placed(section, row)]
        == Listings(entries, section, row, targets)
           + multiset(OnlyWanted(ReadLine, CarriedRows(existing, failed), targets))[Placed(section, row)]
    ensures StartsWith(out, OPENING)
    ensures entries == [] && CarriedRows(existing, failed) == [] ==> out == OPENING + "_No entries yet._\n"
  {
    var groups := EntryGroups(entries);
    groups := PassLines(ReadLine, groups, EntryRows(entries), Lines(existing), failed);
    out := RenderIndexGroups(groups);
    if AllPlain(entries) {
      forall targets, section, row
        ensures multiset(Scan(ReadLine, Lines(out), "Uncategorized", targets))[Placed(section, row)]
             == Listings(entries, section, row, targets)
              + multiset(OnlyWanted(ReadLine, CarriedRows(existing, failed), targets))[Placed(section, row)]
      {
        SectionsFollowTypes(entries, existing, failed, targets, section, row);
      }
    }
    IndexOpens(EntryRows(entries) + CarriedRows(existing, failed));
  }

  // ---------------------------------------------------------------------------
  // The order of the entries does not matter.
  // ---------------------------------------------------------------------------

  lemma {:induction false} SameBody(a: seq<Placed>, b: seq<Placed>, keys: seq<string>)
    requires multiset(a) == multiset(b)
    requires forall k | k in keys :: k in Grouped(a) && k in Grouped(b)
    ensures BodyLines(Grouped(a), keys) == BodyLines(Grouped(b), keys)
  {
    if keys != [] {
      SameArranged(a, b, keys[0]);
      GroupsAreNotEmpty(a);
      GroupsAreNotEmpty(b);
      SameBody(a, b, keys[1..]);
    }
  }

  lemma RowOrderIsForgotten(a: seq<Placed>, b: seq<Placed>)
    requires multiset(a) == multiset(b)
    ensures RenderGroups(Grouped(a)) == RenderGroups(Grouped(b))
  {
    SameElements(a, b);
    SameSections(a, b);
    GroupsAreNotEmpty(a);
    GroupsAreNotEmpty(b);
    SameBody(a, b, SortedKeys(Grouped(a).Keys));
  }

  /** The index depends on which entries there are, not on the order they come in. */
  lemma EntryOrderIsForgotten(a: seq<Entry>, b: seq<Entry>, existing: string, failed: set<string>)
    requires multiset(a) == multiset(b)
    ensures Index(a, existing, failed) == Index(b, existing, failed)
  {
    MapPermutes(a, b, EntryRow);
    RowOrderIsForgotten(EntryRows(a) + CarriedRows(existing, failed), EntryRows(b) + CarriedRows(existing, failed));
  }

  // ---------------------------------------------------------------------------
  // Reading the printed index back.
  // ---------------------------------------------------------------------------

  /** `section` survives being printed as a heading. */
  predicate ProperSection(section: string) {
    TrimEnd(HeadingLine(section)) == HeadingLine(section)
  }

  /** The row stays on lines of its own. */
  predicate Printable(section: string, row: Row) {
    OneLine(section) && OneLine(row.line) && row.line != []
  }

  lemma HeadingIsNotListed(section: string)
    ensures !ReadLine(HeadingLine(section)).Listed?
    ensures ProperSection(section) ==> ReadLine(HeadingLine(section)) == Heading(section)
  {
    var line := HeadingLine(section);
    assert line[0] == '#';
    NoEntry(line);
    assert StartsWith(line, "## ") && line[3..] == section;
  }

  lemma NoStarNoEntry(text: string)
    requires text == [] || (!IsWhitespace(text[0]) && text[0] != '*')
    ensures ParseEntry(text) == None
  {
    assert TrimStart(text) == text;
    assert !StartsWith(text, "* [");
  }

  /** A line that starts with another character than a star or a blank lists nothing. */
  lemma NoEntry(line: string)
    requires line != [] && !IsWhitespace(line[0]) && line[0] != '*'
    ensures ParseEntry(TrimEnd(line)) == None
  {
    TrimEndPrefix(line);
    NoStarNoEntry(TrimEnd(line));
  }

  lemma BlankIsOther()
    ensures ReadLine("") == Other
  {
    assert TrimEnd("") == "" && TrimStart("") == "";
  }

  /** The line is neither a heading nor an entry. */
  predicate Inert(line: string) {
    line != [] && !IsWhitespace(line[0]) && line[0] != '*' && (line[0] != '#' || (|line| > 1 && line[1] != '#'))
  }

  lemma InertIsOther(line: string)
    requires Inert(line)
    ensures ReadLine(line) == Other
  {
    NoEntry(line);
    TrimEndPrefix(line);
  }

  lemma HeadIsOther()
    ensures forall l | l in HEAD :: ReadLine(l).Other?
    ensures ReadLine(NOTHING_YET).Other?
  {
    forall l | l in HEAD
      ensures ReadLine(l).Other?
    {
      if l == "" {
        BlankIsOther();
      } else {
        InertIsOther(l);
      }
    }
    InertIsOther(NOTHING_YET);
  }

  ghost predicate Readable(groups: Groups, targets: set<string>) {
    forall k | k in groups :: forall r | r in groups[k] :: Reads(ReadLine, HeadingLine(k), k, r, targets)
  }

  lemma BlockReads(section: string, rows: seq<Row>, current: string, targets: set<string>)
    requires forall r | r in rows :: Reads(ReadLine, HeadingLine(section), section, r, targets)
    ensures Scan(ReadLine, Block(section, rows), current, targets)
        == WantedRows(ReadLine, section, Arranged(rows), targets)
  {
    HeadingIsNotListed(section);
    BlankIsOther();
    SameElements(rows, Arranged(rows));
    ScanBlock(ReadLine, HeadingLine(section), section, Arranged(rows), current, targets);
  }

  lemma {:induction false} ScanBody(groups: Groups, keys: seq<string>, current: string, targets: set<string>)
    requires Readable(groups, targets)
    requires forall k | k in keys :: k in groups
    ensures Scan(ReadLine, BodyLines(groups, keys), current, targets) == AllWanted(ReadLine, groups, keys, targets)
    decreases |keys|
  {
    if keys != [] {
      var block := Block(keys[0], groups[keys[0]]);
      BlockReads(keys[0], groups[keys[0]], current, targets);
      ScanConcat(ReadLine, block, BodyLines(groups, keys[1..]), current, targets);
      ScanBody(groups, keys[1..], After(ReadLine, block, current), targets);
    }
  }

  // -- The printed text as lines -----------------------------------------------------

  ghost predicate AllPrintable(groups: Groups) {
    forall k | k in groups :: groups[k] != [] && forall r | r in groups[k] :: Printable(k, r)
  }

  ghost predicate AllOneLine(lines: seq<string>) {
    forall l | l in lines :: OneLine(l)
  }

  lemma {:induction false} RowLinesAreLines(section: string, rows: seq<Row>)
    requires forall r | r in rows :: Printable(section, r)
    ensures AllOneLine(LinesOf(rows))
    ensures rows != [] ==> LinesOf(rows) != [] && LinesOf(rows)[|LinesOf(rows)| - 1] != []
  {
    if rows != [] {
      assert Printable(section, rows[0]);
      RowLinesAreLines(section, rows[1..]);
    }
  }

  lemma HeadingIsLine(section: string)
    requires OneLine(section)
    ensures OneLine(HeadingLine(section))
  {
    var heading := HeadingLine(section);
    if section != [] {
      assert heading[|heading| - 1] == section[|section| - 1];
    }
  }

  lemma BlockIsLines(section: string, rows: seq<Row>)
    requires rows != [] && forall r | r in rows :: Printable(section, r)
    ensures var block := Block(section, rows);
            |block| >= 2 && AllOneLine(block) && block[|block| - 1] == "" && block[|block| - 2] != []
  {
    var sorted := Arranged(rows);
    SameElements(rows, sorted);
    RowLinesAreLines(section, sorted);
    assert rows[0] in rows;
    HeadingIsLine(section);
    var lines := LinesOf(sorted);
    assert Block(section, rows) == [HeadingLine(section), ""] + lines + [""];
  }

  lemma {:induction false} BodyIsLines(groups: Groups, keys: seq<string>)
    requires AllPrintable(groups) && forall k | k in keys :: k in groups
    ensures AllOneLine(BodyLines(groups, keys))
    ensures var body := BodyLines(groups, keys);
            keys != [] ==> |body| >= 2 && body[|body| - 1] == "" && body[|body| - 2] != []
  {
    if keys != [] {
      BlockIsLines(keys[0], groups[keys[0]]);
      BodyIsLines(groups, keys[1..]);
      if keys[1..] == [] {
        assert BodyLines(groups, keys) == Block(keys[0], groups[keys[0]]);
      }
    }
  }

  lemma PopOne(lines: seq<string>)
    requires lines != [] && lines[|lines| - 1] != [] && OneLine(lines[|lines| - 1])
    ensures PopNewlines(Unlines(lines + [""])) == Unlines(lines)
  {
    UnlinesConcat(lines, [""]);
    assert Unlines([""]) == "\n" by {
      assert [""][1..] == [];
    }
    LastLineEnds(lines);
    PopLast(Unlines(lines));
  }

  lemma PopLast(text: string)
    requires |text| >= 2 && text[|text| - 1] == '\n' && text[|text| - 2] != '\n'
    ensures PopNewlines(text + "\n") == text
  {
    assert (text + "\n")[..|text|] == text;
    assert PopNewlines(text) == text;
  }

  lemma LastLineEnds(lines: seq<string>)
    requires lines != [] && lines[|lines| - 1] != [] && OneLine(lines[|lines| - 1])
    ensures var text := Unlines(lines); |text| >= 2 && text[|text| - 1] == '\n' && text[|text| - 2] != '\n'
  {
    JoinIsUnlines(lines);
    var last := lines[|lines| - 1];
    assert last[|last| - 1] in last;
  }

  lemma HeadIsLines()
    ensures AllOneLine(HEAD)
  {
  }

  lemma OneMoreLine(lines: seq<string>, last: string)
    requires AllOneLine(lines) && OneLine(last)
    ensures Lines(Unlines(lines) + (last + "\n")) == lines + [last]
  {
    UnlinesConcat(lines, [last]);
    assert Unlines([last]) == last + "\n" by {
      assert [last][1..] == [];
    }
    LinesOfUnlines(lines + [last]);
  }

  lemma EmptyIndexReads(targets: set<string>)
    ensures Scan(ReadLine, Lines(RenderGroups(map[])), UNCATEGORIZED, targets) == []
  {
    HeadIsLines();
    assert NOTHING_YET[0] == '_' && OneLine(NOTHING_YET);
    OneMoreLine(HEAD, NOTHING_YET);
    HeadIsOther();
    ScanNothing(ReadLine, HEAD + [NOTHING_YET], UNCATEGORIZED, targets);
  }

  lemma PoppedLines(head: seq<string>, body: seq<string>)
    requires AllOneLine(head) && AllOneLine(body)
    requires |body| >= 2 && body[|body| - 1] == "" && body[|body| - 2] != []
    ensures Lines(PopNewlines(Unlines(head) + Unlines(body))) + [""] == head + body
  {
    var lines := head + body[..|body| - 1];
    assert lines + [""] == head + body;
    assert lines[|lines| - 1] == body[|body| - 2] && OneLine(body[|body| - 2]);
    assert AllOneLine(lines);
    UnlinesConcat(head, body);
    PopOne(lines);
    LinesOfUnlines(lines);
  }

  lemma RenderedText(groups: Groups)
    requires groups != map[] && forall k | k in groups :: groups[k] != []
    ensures SortedKeys(groups.Keys) != []
    ensures RenderGroups(groups) == PopNewlines(Unlines(HEAD) + Unlines(BodyLines(groups, SortedKeys(groups.Keys))))
  {
    var some :| some in groups;
    assert some in SortedKeys(groups.Keys) && groups[some] != [];
  }

  lemma RenderedLines(groups: Groups)
    requires AllPrintable(groups) && groups != map[]
    ensures Lines(RenderGroups(groups)) + [""] == HEAD + BodyLines(groups, SortedKeys(groups.Keys))
  {
    RenderedText(groups);
    BodyIsLines(groups, SortedKeys(groups.Keys));
    HeadIsLines();
    PoppedLines(HEAD, BodyLines(groups, SortedKeys(groups.Keys)));
  }

  ghost predicate RowsReadable(rows: seq<Placed>, targets: set<string>) {
    forall r | r in rows ::
      Printable(r.section, r.row) && Reads(ReadLine, HeadingLine(r.section), r.section, r.row, targets)
  }

  lemma GroupedReadable(rows: seq<Placed>, targets: set<string>)
    requires RowsReadable(rows, targets)
    ensures AllPrintable(Grouped(rows)) && Readable(Grouped(rows), targets)
  {
    var groups := Grouped(rows);
    forall k, r | k in groups && r in groups[k]
      ensures Printable(k, r) && Reads(ReadLine, HeadingLine(k), k, r, targets)
    {
      GroupedCounts(rows, k, r);
      assert r in multiset(groups[k]);
      assert Placed(k, r) in multiset(rows);
      assert Placed(k, r) in rows;
    }
    GroupsAreNotEmpty(rows);
  }

  /** Whatever targets one asks for, re-reading the printed rows finds exactly the rows with those targets. */
  lemma RowsReadBack(rows: seq<Placed>, targets: set<string>)
    requires RowsReadable(rows, targets)
    ensures multiset(Scan(ReadLine, Lines(RenderGroups(Grouped(rows))), UNCATEGORIZED, targets))
         == multiset(OnlyWanted(ReadLine, rows, targets))
  {
    if rows == [] {
      EmptyIndexReads(targets);
    } else {
      var groups := Grouped(rows);
      GroupedReadable(rows, targets);
      GroupsAreNotEmpty(rows);
      RenderedLines(groups);
      BlankIsOther();
      HeadIsOther();
      ScanFramed(ReadLine, Lines(RenderGroups(groups)), HEAD, BodyLines(groups, SortedKeys(groups.Keys)),
        UNCATEGORIZED, targets);
      ScanBody(groups, SortedKeys(groups.Keys), UNCATEGORIZED, targets);
      BodyHoldsWanted(ReadLine, rows, targets);
    }
  }

  // -- How the index opens ------------------------------------------------------------

  lemma HeadText()
    ensures Unlines(HEAD) == OPENING
  {
    UnlinesCons("", []);
    UnlinesCons("# Wiki Index", [""]);
    UnlinesCons("", ["# Wiki Index", ""]);
    UnlinesCons("---", ["", "# Wiki Index", ""]);
    UnlinesCons("okf_version: \"0.2\"", ["---", "", "# Wiki Index", ""]);
    UnlinesCons("---", ["okf_version: \"0.2\"", "---", "", "# Wiki Index", ""]);
  }

  lemma UnlinesCons(line: string, lines: seq<string>)
    ensures Unlines([line] + lines) == line + "\n" + Unlines(lines)
  {
    assert ([line] + lines)[1..] == lines;
  }

  /** Newlines are taken off the end only: what comes before some other character stays. */
  lemma {:induction false} PopKeeps(text: string, k: nat)
    requires k < |text| && text[k] != '\n'
    ensures |PopNewlines(text)| > k && PopNewlines(text) <= text
  {
    if |text| >= 2 && text[|text| - 1] == '\n' && text[|text| - 2] == '\n' {
      PopKeeps(text[..|text| - 1], k);
    }
  }

  lemma BodyOpens(groups: Groups, keys: seq<string>)
    requires keys != [] && forall k | k in keys :: k in groups && groups[k] != []
    ensures Unlines(BodyLines(groups, keys)) != [] && Unlines(BodyLines(groups, keys))[0] == '#'
  {
    var lines := BodyLines(groups, keys);
    assert keys[0] in keys;
    assert lines[0] == HeadingLine(keys[0]) && lines[0][0] == '#';
  }

  lemma IndexOpens(rows: seq<Placed>)
    ensures StartsWith(RenderGroups(Grouped(rows)), OPENING)
    ensures rows == [] ==> RenderGroups(Grouped(rows)) == OPENING + "_No entries yet._\n"
  {
    var groups, head := Grouped(rows), Unlines(HEAD);
    HeadText();
    GroupsAreNotEmpty(rows);
    if groups != map[] {
      RenderedText(groups);
      var keys := SortedKeys(groups.Keys);
      var body := Unlines(BodyLines(groups, keys));
      BodyOpens(groups, keys);
      assert (head + body)[|head|] == body[0];
      PopKeeps(head + body, |head|);
      assert (head + body)[..|head|] == head;
    }
  }

  // -- Rows that read as themselves ---------------------------------------------------

  lemma TrimmedHasNoNewline(line: string)
    requires '\n' !in line
    ensures OneLine(TrimEnd(line)) && TrimEnd(TrimEnd(line)) == TrimEnd(line)
  {
    TrimEndPrefix(line);
    TrimEndTwice(line);
    forall i | 0 <= i < |TrimEnd(line)|
      ensures TrimEnd(line)[i] != '\n'
    {
      assert TrimEnd(line)[i] == line[i] && line[i] in line;
    }
  }

  lemma HeadingNamesProperSection(raw: string)
    requires '\n' !in raw && ReadLine(raw).Heading?
    ensures OneLine(ReadLine(raw).section) && ProperSection(ReadLine(raw).section)
  {
    var line := TrimEnd(raw);
    TrimmedHasNoNewline(raw);
    assert line == HeadingLine(line[3..]);
    assert forall c | c in line[3..] :: c in line;
  }

  lemma UncategorizedIsProper()
    ensures OneLine(UNCATEGORIZED) && ProperSection(UNCATEGORIZED)
  {
    var heading := HeadingLine(UNCATEGORIZED);
    assert heading[|heading| - 1] == 'd';
  }

  lemma ListedReadsAgain(raw: string)
    requires '\n' !in raw && ReadLine(raw).Listed?
    ensures ReadLine(ReadLine(raw).row.line) == ReadLine(raw)
    ensures OneLine(ReadLine(raw).row.line) && ReadLine(raw).row.line != []
  {
    TrimmedHasNoNewline(raw);
    assert TrimStart("") == "";
  }

  lemma ListedIsStable(lines: seq<string>)
    requires forall l | l in lines :: '\n' !in l
    ensures Stable(ReadLine, lines)
  {
    forall l | l in lines && ReadLine(l).Listed?
      ensures ReadLine(ReadLine(l).row.line) == ReadLine(l)
    {
      ListedReadsAgain(l);
    }
  }

  ghost predicate CarriedAreSound(rows: seq<Placed>, failed: set<string>) {
    && RowsReadable(rows, failed)
    && (forall r | r in rows ::
          Wanted(ReadLine, r.row.line, failed) && ReadLine(r.row.line).row == r.row && ProperSection(r.section))
  }

  lemma {:induction false} CarriedReadAsThemselves(lines: seq<string>, current: string, carried: set<string>,
      failed: set<string>)
    requires forall l | l in lines :: '\n' !in l
    requires OneLine(current) && ProperSection(current)
    ensures CarriedAreSound(Carry(ReadLine, lines, current, carried, failed), failed)
    decreases |lines|
  {
    if lines != [] {
      assert lines[0] in lines;
      match ReadLine(lines[0])
      case Heading(section) =>
        HeadingNamesProperSection(lines[0]);
        CarriedReadAsThemselves(lines[1..], section, carried, failed);
      case Other => CarriedReadAsThemselves(lines[1..], current, carried, failed);
      case Listed(row, target) =>
        if target in failed && target !in carried {
          CarriedReadAsThemselves(lines[1..], current, carried + {target}, failed);
          ListedReadsAgain(lines[0]);
          HeadingIsNotListed(current);
        } else {
          CarriedReadAsThemselves(lines[1..], current, carried, failed);
        }
    }
  }

  /** The fields print on one line. */
  predicate SingleLine(e: Entry) {
    && '\n' !in e.title && '\n' !in e.id
    && (e.description.Some? ==> '\n' !in Trim(e.description.value))
    && (e.entryType.Some? ==> OneLine(e.entryType.value))
  }

  lemma DescriptionIsTrimmed(text: string)
    ensures Trim(text) != [] ==> !IsWhitespace(Trim(text)[|Trim(text)| - 1])
  {
    TrimEndTwice(TrimStart(text));
  }

  lemma Endings(e: Entry)
    ensures var line := EntryLine(e); line != [] && line[0] == '*' && !IsWhitespace(line[|line| - 1])
  {
    var line := EntryLine(e);
    if e.description.Some? && Trim(e.description.value) != [] {
      DescriptionIsTrimmed(e.description.value);
      assert line[|line| - 1] == Trim(e.description.value)[|Trim(e.description.value)| - 1];
    } else {
      assert line[|line| - 1] == ')';
    }
  }

  lemma EntryHasNoNewline(e: Entry)
    requires SingleLine(e)
    ensures '\n' !in EntryLine(e)
  {
  }

  lemma EntryReads(e: Entry)
    requires SingleLine(e)
    ensures Printable(EntryRow(e).section, EntryRow(e).row)
    ensures ReadLine(EntryLine(e)) ==
            match ParseEntry(EntryLine(e))
            case Some((title, target)) => Listed(Row(Lower(title), EntryLine(e)), target)
            case None => Other
  {
    Endings(e);
    EntryHasNoNewline(e);
    UncategorizedIsProper();
  }

  lemma EntriesReadable(entries: seq<Entry>, targets: set<string>)
    requires forall e | e in entries ::
      SingleLine(e) && Reads(ReadLine, HeadingLine(EntryRow(e).section), EntryRow(e).section, EntryRow(e).row, targets)
    ensures RowsReadable(EntryRows(entries), targets)
  {
    MapMembers(entries, EntryRow);
    forall e | e in entries
      ensures Printable(EntryRow(e).section, EntryRow(e).row)
    {
      EntryReads(e);
    }
  }

  // -- What is carried over, and the fixed point ------------------------------------------

  /**
   For every failed path that the old index lists, its first line is carried, in its
   section; nothing else is, and no path twice.
   */
  lemma CarriedOncePerPath(existing: string, failed: set<string>)
    ensures FirstOnes(ReadLine, CarriedRows(existing, failed), Scan(ReadLine, Lines(existing), UNCATEGORIZED, failed),
        {})
    ensures DistinctTargets(ReadLine, CarriedRows(existing, failed))
    ensures CarriedAreSound(CarriedRows(existing, failed), failed)
  {
    LinesHoldNoNewline(existing);
    ListedIsStable(Lines(existing));
    CarriesFirstOnes(ReadLine, Lines(existing), UNCATEGORIZED, {}, failed);
    UncategorizedIsProper();
    CarriedReadAsThemselves(Lines(existing), UNCATEGORIZED, {}, failed);
  }

  /** No parsed page's own line reads as the line of a failed path. */
  predicate Apart(e: Entry, failed: set<string>) {
    ParseEntry(EntryLine(e)).Some? ==> ParseEntry(EntryLine(e)).value.1 !in failed
  }

  lemma ApartIsUnwanted(entries: seq<Entry>, failed: set<string>)
    requires forall e | e in entries :: SingleLine(e) && Apart(e, failed)
    ensures RowsReadable(EntryRows(entries), failed)
    ensures forall r | r in EntryRows(entries) :: !Wanted(ReadLine, r.row.line, failed)
  {
    forall e | e in entries
      ensures !Wanted(ReadLine, EntryLine(e), failed) && !ReadLine(EntryLine(e)).Heading?
    {
      EntryReads(e);
    }
    EntriesReadable(entries, failed);
    MapMembers(entries, EntryRow);
  }

  /** Re-reading a printed index carries the same rows again. */
  lemma CarriesTheSame(entries: seq<Entry>, carried: seq<Placed>, failed: set<string>)
    requires forall e | e in entries :: SingleLine(e) && Apart(e, failed)
    requires CarriedAreSound(carried, failed) && DistinctTargets(ReadLine, carried)
    ensures multiset(CarriedRows(RenderGroups(Grouped(EntryRows(entries) + carried)), failed)) == multiset(carried)
  {
    var rows := EntryRows(entries) + carried;
    var text := RenderGroups(Grouped(rows));
    ApartIsUnwanted(entries, failed);
    RowsReadBack(rows, failed);
    NoneWanted(ReadLine, EntryRows(entries), carried, failed);
    DistinctTargetsPermute(ReadLine, carried, Scan(ReadLine, Lines(text), UNCATEGORIZED, failed));
    LinesHoldNoNewline(text);
    ListedIsStable(Lines(text));
    CarriesAll(ReadLine, Lines(text), UNCATEGORIZED, {}, failed);
  }

  /**
   Printing again from what was printed changes nothing, as long as fields stay on one
   line and no parsed page's line reads as that of a failed path.
   */
  lemma RerenderIsFixed(entries: seq<Entry>, existing: string, failed: set<string>)
    requires forall e | e in entries :: SingleLine(e) && Apart(e, failed)
    ensures Index(entries, Index(entries, existing, failed), failed) == Index(entries, existing, failed)
  {
    var carried := CarriedRows(existing, failed);
    CarriedOncePerPath(existing, failed);
    CarriesTheSame(entries, carried, failed);
    RowOrderIsForgotten(EntryRows(entries) + CarriedRows(Index(entries, existing, failed), failed),
      EntryRows(entries) + carried);
  }

  // -- What the index lists ----------------------------------------------------------------

  /** The first character of the pattern does not come again in it. */
  predicate StartsOnce(pattern: string) {
    pattern != [] && forall i | 0 < i < |pattern| :: pattern[i] != pattern[0]
  }

  lemma {:induction false} FindJoint(a: string, pattern: string, b: string)
    requires StartsOnce(pattern)
    requires Find(a, pattern) == |a|
    ensures Find(a + (pattern + b), pattern) == |a|
  {
    var text := a + (pattern + b);
    if a == [] {
      assert text == pattern + b;
    } else {
      assert text[1..] == a[1..] + (pattern + b);
      FindJoint(a[1..], pattern, b);
      NotHere(a, pattern, b);
    }
  }

  /** A pattern whose first character does not come again in it cannot straddle its own first place. */
  lemma NotHere(a: string, pattern: string, b: string)
    requires StartsOnce(pattern)
    requires a != [] && Find(a, pattern) == |a|
    ensures !StartsWith(a + (pattern + b), pattern)
  {
    var text := a + (pattern + b);
    if |a| < |pattern| {
      assert text[..|pattern|][|a|] == pattern[0] != pattern[|a|];
    } else {
      assert text[..|pattern|] == a[..|pattern|];
    }
  }

  lemma SplitJoint(a: string, pattern: string, b: string)
    requires StartsOnce(pattern)
    requires Find(a, pattern) == |a|
    ensures SplitOnce(a + (pattern + b), pattern) == Some((a, b))
  {
    FindJoint(a, pattern, b);
    Regroup(a, pattern, b);
    var text := (a + pattern) + b;
    assert text[..|a|] == a;
    assert text[|a + pattern|..] == b;
  }

  /** The entries print on one line each and their lines and headings read back as they are. */
  ghost predicate AllPlain(entries: seq<Entry>) {
    && (forall e | e in entries :: SingleLine(e) && Plain(e))
    && forall e | e in entries && e.entryType.Some? :: ProperSection(e.entryType.value)
  }

  /** The title does not hold `](/` and the identifier is not empty and does not hold `.md)`. */
  predicate Plain(e: Entry) {
    Find(e.title, "](/") == |e.title| && e.id != [] && Find(e.id, ".md)") == |e.id|
  }

  function Tail(e: Entry): string {
    match e.description
    case Some(text) => if Trim(text) != [] then " - " + Trim(text) else ""
    case None => ""
  }

  lemma PrefixStarts(s: string, pattern: string, k: nat)
    requires k <= |s|
    ensures StartsWith(s[..k], pattern) ==> StartsWith(s, pattern)
  {
    if |pattern| <= k {
      assert s[..k][..|pattern|] == s[..|pattern|];
    }
  }

  lemma {:induction false} FoundAt(s: string, pattern: string)
    requires pattern != []
    ensures var k := Find(s, pattern);
            && Find(s[..k], pattern) == k
            && (k < |s| ==> k + |pattern| <= |s| && s[k..k + |pattern|] == pattern)
  {
    if s != [] && !StartsWith(s, pattern) {
      var k := Find(s[1..], pattern);
      FoundAt(s[1..], pattern);
      assert s[..k + 1][1..] == s[1..][..k];
      PrefixStarts(s, pattern, k + 1);
      assert k < |s[1..]| ==> s[1..][k..k + |pattern|] == s[k + 1..k + 1 + |pattern|];
    }
  }

  /** What lies on either side of the first place of a pattern. */
  lemma SplitParts(s: string, pattern: string)
    requires pattern != []
    ensures SplitOnce(s, pattern).Some? ==>
              var parts := SplitOnce(s, pattern).value;
              s == parts.0 + (pattern + parts.1) && Find(parts.0, pattern) == |parts.0|
  {
    FoundAt(s, pattern);
    var k := Find(s, pattern);
    if k + |pattern| <= |s| && k < |s| {
      assert s == s[..k] + (s[k..k + |pattern|] + s[k + |pattern|..]);
    }
  }

  function EntryText(title: string, target: string, rest: string): string {
    "* [" + (title + ("](/" + (target + (".md)" + rest))))
  }

  /** Title and target end at the first place they can, and the target is not empty. */
  predicate EndsFirst(title: string, target: string) {
    Find(title, "](/") == |title| && Find(target, ".md)") == |target| && target != []
  }

  lemma ParsedIsEntry(line: string, title: string, target: string) returns (rest: string)
    requires ParseEntry(line) == Some((title, target))
    ensures EndsFirst(title, target) && TrimStart(line) == EntryText(title, target, rest)
  {
    var text := TrimStart(line);
    SplitParts(text[3..], "](/");
    var after := SplitOnce(text[3..], "](/").value.1;
    SplitParts(after, ".md)");
    rest := SplitOnce(after, ".md)").value.1;
    assert text == text[..3] + text[3..];
  }

  lemma EntryParses(line: string, title: string, target: string, rest: string)
    requires EndsFirst(title, target) && TrimStart(line) == EntryText(title, target, rest)
    ensures ParseEntry(line) == Some((title, target))
  {
    var text := TrimStart(line);
    assert text[..3] == "* [" && text[3..] == title + ("](/" + (target + (".md)" + rest)));
    SplitJoint(title, "](/", target + (".md)" + rest));
    SplitJoint(target, ".md)", rest);
  }

  /** A line is an entry exactly if, leading blanks aside, it reads `* [title](/target.md)` and more, where
      title and target end at the first place they can and the target is not empty. */
  lemma EntriesExactly(line: string, title: string, target: string)
    ensures ParseEntry(line) == Some((title, target)) <==>
            EndsFirst(title, target) && exists rest :: TrimStart(line) == EntryText(title, target, rest)
  {
    if ParseEntry(line) == Some((title, target)) {
      var rest := ParsedIsEntry(line, title, target);
    }
    if EndsFirst(title, target) && exists rest :: TrimStart(line) == EntryText(title, target, rest) {
      var rest :| TrimStart(line) == EntryText(title, target, rest);
      EntryParses(line, title, target, rest);
    }
  }

  lemma EntryLineShape(e: Entry)
    ensures EntryLine(e) == "* [" + (e.title + ("](/" + (e.id + (".md)" + Tail(e)))))
  {
  }

  /** A plain entry's line reads back as its title and identifier. */
  lemma PlainEntryReads(e: Entry)
    requires Plain(e)
    ensures ParseEntry(EntryLine(e)) == Some((e.title, e.id))
    ensures EntryLine(e) == "* [" + e.title + "](/" + e.id + ".md)"
        + if e.description.Some? && Trim(e.description.value) != [] then " - " + Trim(e.description.value) else ""
  {
    var line := EntryLine(e);
    EntryLineShape(e);
    assert line[0] == '*' && TrimStart(line) == line;
    assert line[3..] == e.title + ("](/" + (e.id + (".md)" + Tail(e))));
    SplitJoint(e.title, "](/", e.id + (".md)" + Tail(e)));
    SplitJoint(e.id, ".md)", Tail(e));
  }

  /**
   The index of plain, single-line entries under proper sections lists, for whatever
   targets one looks up, exactly the entries with those identifiers and the carried
   lines with those targets, each in its section, and nothing else.
   */
  lemma IndexListsAll(entries: seq<Entry>, existing: string, failed: set<string>, targets: set<string>)
    requires forall e | e in entries :: SingleLine(e) && Plain(e) && ProperSection(EntryRow(e).section)
    ensures multiset(Scan(ReadLine, Lines(Index(entries, existing, failed)), UNCATEGORIZED, targets))
         == multiset(OnlyWanted(ReadLine, EntryRows(entries) + CarriedRows(existing, failed), targets))
    ensures forall e | e in entries :: ReadLine(EntryLine(e)) == Listed(EntryRow(e).row, e.id)
  {
    CarriedOncePerPath(existing, failed);
    forall e | e in entries
      ensures ReadLine(EntryLine(e)) == Listed(EntryRow(e).row, e.id)
      ensures ReadLine(HeadingLine(EntryRow(e).section)) == Heading(EntryRow(e).section)
    {
      PlainEntryReads(e);
      EntryReads(e);
      HeadingIsNotListed(EntryRow(e).section);
    }
    EntriesReadable(entries, targets);
    forall r | r in CarriedRows(existing, failed)
      ensures Reads(ReadLine, HeadingLine(r.section), r.section, r.row, targets)
    {
      HeadingIsNotListed(r.section);
    }
    RowsReadBack(EntryRows(entries) + CarriedRows(existing, failed), targets);
  }

  /** How many of the entries have this row and belong under `section`: the section of an entry is its
      type, and only one without a type is uncategorized. */
  function Listings(entries: seq<Entry>, section: string, row: Row, targets: set<string>): nat {
    if entries == [] then 0
    else
      var e := entries[0];
      (if row.line == EntryLine(e) && row.key == Lower(e.title) && e.id in targets
         && section == (match e.entryType case Some(name) => name case None => "Uncategorized")
       then 1 else 0) + Listings(entries[1..], section, row, targets)
  }

  lemma {:induction false} RowsAreListings(entries: seq<Entry>, section: string, row: Row, targets: set<string>)
    requires forall e | e in entries :: ReadLine(EntryLine(e)) == Listed(EntryRow(e).row, e.id)
    ensures (if Wanted(ReadLine, row.line, targets) then multiset(EntryRows(entries))[Placed(section, row)] else 0)
         == Listings(entries, section, row, targets)
  {
    if entries != [] {
      assert entries[0] in entries;
      RowsAreListings(entries[1..], section, row, targets);
      assert EntryRows(entries) == [EntryRow(entries[0])] + EntryRows(entries[1..]);
    }
  }

  /**
   Re-reading the index of plain, single-line entries finds each under the heading of its
   type, and under "Uncategorized" exactly those that have none, as often as they were
   given; the other rows of a section are the lines carried over for failed pages.
   */
  lemma SectionsFollowTypes(entries: seq<Entry>, existing: string, failed: set<string>, targets: set<string>,
      section: string, row: Row)
    requires AllPlain(entries)
    ensures multiset(Scan(ReadLine, Lines(Index(entries, existing, failed)), "Uncategorized", targets))
                [Placed(section, row)]
         == Listings(entries, section, row, targets)
          + multiset(OnlyWanted(ReadLine, CarriedRows(existing, failed), targets))[Placed(section, row)]
  {
    UncategorizedIsProper();
    IndexListsAll(entries, existing, failed, targets);
    OnlyWantedCounts(ReadLine, EntryRows(entries) + CarriedRows(existing, failed), targets, Placed(section, row));
    OnlyWantedCounts(ReadLine, CarriedRows(existing, failed), targets, Placed(section, row));
    RowsAreListings(entries, section, row, targets);
  }

  /** Plain entries whose identifiers are no failed paths: the everyday case of the fixed point. */
  lemma PlainRerenderIsFixed(entries: seq<Entry>, existing: string, failed: set<string>)
    requires forall e | e in entries :: SingleLine(e) && Plain(e) && e.id !in failed
    ensures Index(entries, Index(entries, existing, failed), failed) == Index(entries, existing, failed)
  {
    forall e | e in entries
      ensures Apart(e, failed)
    {
      PlainEntryReads(e);
    }
    RerenderIsFixed(entries, existing, failed);
  }
}
