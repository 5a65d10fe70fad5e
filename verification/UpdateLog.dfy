/**
 The update log: date groups, newest first, kept by a function that re-reads its
 own output on every append.
 */
module UpdateLog {
  import opened Basics
  import opened Sorting
  import opened TextLines
  import opened LockedLog

  const LOG_TITLE: string := "# Update Log"

  predicate IsIsoDate(s: string) {
    |s| == 10 && s[4] == '-' && s[7] == '-' && forall i | 0 <= i < 10 && i != 4 && i != 7 :: '0' <= s[i] <= '9'
  }

  function DateHeading(date: string): string {
    "## " + date
  }

  /** `lines.iter().position(|l| l.trim() == wanted)`, or the number of lines. */
  function FirstTrimmed(lines: seq<string>, wanted: string): (k: nat)
    ensures k <= |lines|
  {
    if lines == [] || Trim(lines[0]) == wanted then 0 else 1 + FirstTrimmed(lines[1..], wanted)
  }

  predicate IsSection(line: string) {
    StartsWith(TrimStart(line), "## ")
  }

  /** The first line that opens a date group, or the number of lines. */
  function FirstSection(lines: seq<string>): (k: nat)
    ensures k <= |lines|
  {
    if lines == [] || IsSection(lines[0]) then 0 else 1 + FirstSection(lines[1..])
  }

  function InsertAt(lines: seq<string>, i: nat, line: string): seq<string>
    requires i <= |lines|
  {
    lines[..i] + [line] + lines[i..]
  }

  function FinishLog(lines: seq<string>): string {
    var out := Join(lines);
    if out != [] && out[|out| - 1] == '\n' then out else out + "\n"
  }

  /** Where a new date group goes: ahead of the first group, else after the title, else at the top. */
  function GroupPlace(lines: seq<string>): (k: nat)
    ensures k <= |lines|
  {
    var section, title := FirstSection(lines), FirstTrimmed(lines, LOG_TITLE);
    if section < |lines| then section else if title < |lines| then title + 1 else 0
  }

  /** The log with `line` added under `date`. */
  function Appended(existing: string, date: string, line: string): string {
    var heading := DateHeading(date);
    if Trim(existing) == [] then LOG_TITLE + "\n\n" + heading + "\n" + line + "\n"
    else
      var lines := Lines(existing);
      var pos := FirstTrimmed(lines, heading);
      if pos < |lines| then FinishLog(InsertAt(lines, pos + 1, line))
      else
        var place := GroupPlace(lines);
        FinishLog(lines[..place] + [heading, line, ""] + lines[place..])
  }

  lemma InsertNext(before: seq<string>, place: nat, block: seq<string>, i: nat)
    requires place <= |before| && i < |block|
    ensures InsertAt(before[..place] + block[..i] + before[place..], place + i, block[i])
        == before[..place] + block[..i + 1] + before[place..]
  {
    var lines := before[..place] + block[..i] + before[place..];
    assert lines[..place + i] == before[..place] + block[..i] && lines[place + i..] == before[place..];
    assert block[..i + 1] == block[..i] + [block[i]];
  }

  /** Inserting the elements of `block` one after the other, as `append_log_line` does. */
  method InsertBlock(before: seq<string>, place: nat, block: seq<string>) returns (lines: seq<string>)
    requires place <= |before|
    ensures lines == before[..place] + block + before[place..]
  {
    lines := before;
    assert before == before[..place] + block[..0] + before[place..];
    for i := 0 to |block|
      invariant lines == before[..place] + block[..i] + before[place..]
    {
      InsertNext(before, place, block, i);
      lines := InsertAt(lines, place + i, block[i]);
    }
    assert block[..|block|] == block;
  }

  /** `append_log_line`: one insertion below an existing heading, or a block inserted line by line. */
  method AppendLogLine(existing: string, date: string, line: string) returns (out: string)
    ensures out == Appended(existing, date, line)
  {
    var heading := DateHeading(date);
    if Trim(existing) == [] {
      return LOG_TITLE + "\n\n" + heading + "\n" + line + "\n";
    }
    var lines := Lines(existing);
    var pos := FirstTrimmed(lines, heading);
    if pos < |lines| {
      lines := InsertAt(lines, pos + 1, line);
      return FinishLog(lines);
    }
    var place := GroupPlace(lines);
    lines := InsertBlock(lines, place, [heading, line, ""]);
    out := FinishLog(lines);
  }

  // ---------------------------------------------------------------------------
  // The log as groups.
  // ---------------------------------------------------------------------------

  datatype Group = Group(date: string, entries: seq<string>)

  /** A line that can stand in the log without being mistaken for one of its headings. */
  predicate IsEntry(line: string) {
    OneLine(line) && line != [] && !IsSection(line)
  }

  predicate WellFormed(g: Group) {
    IsIsoDate(g.date) && g.entries != [] && forall e | e in g.entries :: IsEntry(e)
  }

  /** The lines of the first group below its heading; a blank line parts it from the next. */
  function Leading(groups: seq<Group>): seq<string>
    requires groups != []
  {
    groups[0].entries + (if |groups| == 1 then [] else [""])
  }

  function GroupLines(groups: seq<Group>): seq<string> {
    if groups == [] then [] else [DateHeading(groups[0].date)] + Leading(groups) + GroupLines(groups[1..])
  }

  function LogLines(groups: seq<Group>): seq<string> {
    [LOG_TITLE, ""] + GroupLines(groups)
  }

  function Render(groups: seq<Group>): string {
    Unlines(LogLines(groups))
  }

  predicate HasDate(groups: seq<Group>, date: string) {
    exists i :: 0 <= i < |groups| && groups[i].date == date
  }

  /** `line` leads the group of `date`. */
  function Prepended(groups: seq<Group>, date: string, line: string): seq<Group> {
    if groups == [] then []
    else if groups[0].date == date then [Group(date, [line] + groups[0].entries)] + groups[1..]
    else [groups[0]] + Prepended(groups[1..], date, line)
  }

  function Added(groups: seq<Group>, date: string, line: string): seq<Group> {
    if HasDate(groups, date) then Prepended(groups, date, line) else [Group(date, [line])] + groups
  }

  // -- Re-reading ---------------------------------------------------------------

  lemma {:induction false} TrimEndKeeps(s: string)
    requires s != [] && !IsWhitespace(s[0])
    ensures TrimEnd(s) != [] && TrimEnd(s)[0] == s[0]
  {
    if IsWhitespace(s[|s| - 1]) {
      TrimEndKeeps(s[..|s| - 1]);
    }
  }

  lemma HeadingShape(date: string)
    requires IsIsoDate(date)
    ensures |DateHeading(date)| == 13 && DateHeading(date)[0] == '#' && DateHeading(date)[12] == date[9]
    ensures '\n' !in DateHeading(date)
  {
  }

  lemma HeadingTrims(date: string)
    requires IsIsoDate(date)
    ensures Trim(DateHeading(date)) == DateHeading(date)
  {
    HeadingShape(date);
    TrimKeepsTrimmed(DateHeading(date));
  }

  lemma HeadingIsSection(date: string)
    ensures IsSection(DateHeading(date))
  {
    assert DateHeading(date)[0] == '#';
    assert TrimStart(DateHeading(date)) == DateHeading(date);
  }

  lemma TrimmedHeadingIsSection(line: string, date: string)
    requires Trim(line) == DateHeading(date)
    ensures IsSection(line)
  {
    var start := TrimStart(line);
    TrimEndPrefix(start);
    assert DateHeading(date) <= start;
    assert DateHeading(date)[..3] == start[..3];
  }

  lemma DifferentHeadings(a: string, b: string)
    requires DateHeading(a) == DateHeading(b)
    ensures a == b
  {
    assert DateHeading(a)[3..] == a && DateHeading(b)[3..] == b;
  }

  /** Among the headings of dates, trimming tells one date from another. */
  lemma HeadingsApart(a: string, b: string)
    requires IsIsoDate(a)
    ensures Trim(DateHeading(a)) == DateHeading(b) <==> a == b
  {
    HeadingTrims(a);
    if DateHeading(a) == DateHeading(b) {
      DifferentHeadings(a, b);
    }
  }

  lemma {:induction false} SkipToSection(entries: seq<string>, rest: seq<string>)
    requires forall e | e in entries :: !IsSection(e)
    ensures FirstSection(entries + rest) == |entries| + FirstSection(rest)
  {
    if entries == [] {
      assert entries + rest == rest;
    } else {
      assert entries[0] in entries;
      SkipToSection(entries[1..], rest);
      assert (entries + rest)[1..] == entries[1..] + rest;
    }
  }

  lemma {:induction false} SkipToHeading(entries: seq<string>, rest: seq<string>, date: string)
    requires forall e | e in entries :: !IsSection(e)
    ensures FirstTrimmed(entries + rest, DateHeading(date)) == |entries| + FirstTrimmed(rest, DateHeading(date))
  {
    if entries == [] {
      assert entries + rest == rest;
    } else {
      assert entries[0] in entries;
      if Trim(entries[0]) == DateHeading(date) {
        TrimmedHeadingIsSection(entries[0], date);
      }
      SkipToHeading(entries[1..], rest, date);
      assert (entries + rest)[1..] == entries[1..] + rest;
    }
  }

  lemma BlankIsNoSection()
    ensures !IsSection("")
  {
  }

  lemma InsertBehind(prefix: seq<string>, tail: seq<string>, i: nat, line: string)
    requires i <= |tail|
    ensures InsertAt(prefix + tail, |prefix| + i, line) == prefix + InsertAt(tail, i, line)
  {
  }

  lemma HasDateStep(groups: seq<Group>, date: string)
    requires groups != []
    ensures HasDate(groups, date) <==> groups[0].date == date || HasDate(groups[1..], date)
  {
    if i :| 0 < i < |groups| && groups[i].date == date {
      assert groups[1..][i - 1].date == date;
    }
  }

  lemma GroupLinesSplit(groups: seq<Group>)
    requires groups != []
    ensures GroupLines(groups)[0] == DateHeading(groups[0].date)
    ensures GroupLines(groups)[1..] == Leading(groups) + GroupLines(groups[1..])
  {
  }

  lemma LeadingHoldsNoSection(groups: seq<Group>)
    requires groups != [] && WellFormed(groups[0])
    ensures forall e | e in Leading(groups) :: !IsSection(e)
  {
    BlankIsNoSection();
  }

  ghost predicate AllWellFormed(groups: seq<Group>) {
    forall g | g in groups :: WellFormed(g)
  }

  lemma FirstHeadingElsewhere(groups: seq<Group>, date: string)
    requires groups != [] && WellFormed(groups[0]) && groups[0].date != date
    ensures FirstTrimmed(GroupLines(groups), DateHeading(date))
        == 1 + |Leading(groups)| + FirstTrimmed(GroupLines(groups[1..]), DateHeading(date))
  {
    GroupLinesSplit(groups);
    HeadingsApart(groups[0].date, date);
    LeadingHoldsNoSection(groups);
    SkipToHeading(Leading(groups), GroupLines(groups[1..]), date);
  }

  lemma FirstHeadingHere(groups: seq<Group>, date: string)
    requires groups != [] && WellFormed(groups[0]) && groups[0].date == date
    ensures FirstTrimmed(GroupLines(groups), DateHeading(date)) == 0
  {
    GroupLinesSplit(groups);
    HeadingsApart(groups[0].date, date);
  }

  lemma InsertSecond(head: string, a: seq<string>, b: seq<string>, line: string)
    ensures InsertAt([head] + a + b, 1, line) == [head] + ([line] + a) + b
  {
  }

  lemma InsertIntoFirst(groups: seq<Group>, date: string, line: string)
    requires groups != [] && groups[0].date == date
    ensures InsertAt(GroupLines(groups), 1, line) == GroupLines(Prepended(groups, date, line))
  {
    var first := Group(date, [line] + groups[0].entries);
    var after := [first] + groups[1..];
    assert after[1..] == groups[1..];
    assert Leading(after) == [line] + Leading(groups);
    InsertSecond(DateHeading(date), Leading(groups), GroupLines(groups[1..]), line);
  }

  /** Below its title the log finds the right heading, and inserting there is adding to that group. */
  ghost predicate InsertsAt(groups: seq<Group>, date: string, line: string, pos: nat) {
    && pos < |GroupLines(groups)|
    && InsertAt(GroupLines(groups), pos + 1, line) == GroupLines(Prepended(groups, date, line))
  }

  lemma {:induction false} InsertIntoGroups(groups: seq<Group>, date: string, line: string)
    requires AllWellFormed(groups)
    ensures var pos := FirstTrimmed(GroupLines(groups), DateHeading(date));
            if HasDate(groups, date) then InsertsAt(groups, date, line, pos) else pos == |GroupLines(groups)|
  {
    if groups != [] {
      HasDateStep(groups, date);
      if groups[0].date == date {
        FirstHeadingHere(groups, date);
        InsertIntoFirst(groups, date, line);
      } else {
        FirstHeadingElsewhere(groups, date);
        GroupLinesSplit(groups);
        InsertIntoGroups(groups[1..], date, line);
        if HasDate(groups, date) {
          InsertsLater(groups, date, line, FirstTrimmed(GroupLines(groups[1..]), DateHeading(date)));
        }
      }
    }
  }

  lemma InsertsLater(groups: seq<Group>, date: string, line: string, pos: nat)
    requires groups != [] && groups[0].date != date && InsertsAt(groups[1..], date, line, pos)
    ensures InsertsAt(groups, date, line, 1 + |Leading(groups)| + pos)
  {
    InsertIntoLater(groups, date, line, pos + 1);
  }

  lemma InsertIntoLater(groups: seq<Group>, date: string, line: string, pos: nat)
    requires groups != [] && groups[0].date != date
    requires pos <= |GroupLines(groups[1..])|
    requires InsertAt(GroupLines(groups[1..]), pos, line) == GroupLines(Prepended(groups[1..], date, line))
    ensures 1 + |Leading(groups)| + pos <= |GroupLines(groups)|
    ensures InsertAt(GroupLines(groups), 1 + |Leading(groups)| + pos, line) == GroupLines(Prepended(groups, date, line))
  {
    var rest := Prepended(groups[1..], date, line);
    var after := [groups[0]] + rest;
    var prefix := [DateHeading(groups[0].date)] + Leading(groups);
    PrependedLength(groups[1..], date, line);
    assert after[0] == groups[0] && after[1..] == rest;
    assert Leading(after) == Leading(groups);
    assert GroupLines(after) == prefix + GroupLines(rest);
    InsertBehind(prefix, GroupLines(groups[1..]), pos, line);
  }

  lemma {:induction false} PrependedLength(groups: seq<Group>, date: string, line: string)
    ensures |Prepended(groups, date, line)| == |groups|
  {
    if groups != [] {
      PrependedLength(groups[1..], date, line);
    }
  }

  ghost predicate AllLines(lines: seq<string>) {
    forall l | l in lines :: OneLine(l)
  }

  lemma {:induction false} GroupLinesAreLines(groups: seq<Group>)
    requires AllWellFormed(groups)
    ensures AllLines(GroupLines(groups))
  {
    if groups != [] {
      GroupLinesSplit(groups);
      GroupLinesAreLines(groups[1..]);
      assert WellFormed(groups[0]);
      HeadingShape(groups[0].date);
      assert OneLine(DateHeading(groups[0].date));
      assert AllLines(Leading(groups));
    }
  }

  lemma {:induction false} GroupLinesEndInEntry(groups: seq<Group>)
    requires AllWellFormed(groups) && groups != []
    ensures var lines := GroupLines(groups); lines != [] && lines[|lines| - 1] != [] && OneLine(lines[|lines| - 1])
  {
    GroupLinesSplit(groups);
    assert WellFormed(groups[0]);
    if |groups| == 1 {
      assert groups[0].entries[|groups[0].entries| - 1] in groups[0].entries;
    } else {
      GroupLinesEndInEntry(groups[1..]);
    }
  }

  lemma TitleShape()
    ensures LOG_TITLE[0] == '#' && OneLine(LOG_TITLE) && !IsSection(LOG_TITLE)
  {
    assert LOG_TITLE[1] == ' ';
    assert TrimStart(LOG_TITLE) == LOG_TITLE;
  }

  lemma TopHoldsNoSection()
    ensures forall e | e in [LOG_TITLE, ""] :: !IsSection(e)
    ensures AllLines([LOG_TITLE, ""])
  {
    TitleShape();
    BlankIsNoSection();
  }

  lemma LogReadsBack(groups: seq<Group>)
    requires AllWellFormed(groups)
    ensures Lines(Render(groups)) == LogLines(groups)
  {
    GroupLinesAreLines(groups);
    TopHoldsNoSection();
    LinesOfUnlines(LogLines(groups));
  }

  lemma LogIsNotBlank(groups: seq<Group>)
    ensures Trim(Render(groups)) != []
  {
    TitleShape();
    assert Render(groups)[0] == LogLines(groups)[0][0];
    TrimEndKeeps(Render(groups));
  }

  lemma FinishIsUnlines(lines: seq<string>)
    requires lines != [] && lines[|lines| - 1] != [] && OneLine(lines[|lines| - 1])
    ensures FinishLog(lines) == Unlines(lines)
  {
    JoinIsUnlines(lines);
    var last := lines[|lines| - 1];
    assert last[|last| - 1] in last;
  }

  lemma FinishRenders(groups: seq<Group>)
    requires groups != [] && AllWellFormed(groups)
    ensures FinishLog(LogLines(groups)) == Render(groups)
  {
    GroupLinesEndInEntry(groups);
    FinishIsUnlines(LogLines(groups));
  }

  lemma {:induction false} AddedWellFormed(groups: seq<Group>, date: string, line: string)
    requires AllWellFormed(groups) && IsIsoDate(date) && IsEntry(line)
    ensures AllWellFormed(Prepended(groups, date, line)) && AllWellFormed(Added(groups, date, line))
  {
    if groups != [] {
      AddedWellFormed(groups[1..], date, line);
      assert WellFormed(groups[0]);
    }
  }

  lemma FindsHeading(groups: seq<Group>, date: string, line: string)
    requires AllWellFormed(groups)
    ensures var lines := LogLines(groups);
            var pos := FirstTrimmed(lines, DateHeading(date));
            if HasDate(groups, date) then pos < |lines|
                && InsertAt(lines, pos + 1, line) == LogLines(Prepended(groups, date, line))
            else pos == |lines|
  {
    var pos := FirstTrimmed(GroupLines(groups), DateHeading(date));
    InsertIntoGroups(groups, date, line);
    TopHoldsNoSection();
    SkipToHeading([LOG_TITLE, ""], GroupLines(groups), date);
    if HasDate(groups, date) {
      InsertBelowTop(groups, Prepended(groups, date, line), pos + 1, line);
    }
  }

  lemma InsertBelowTop(groups: seq<Group>, after: seq<Group>, i: nat, line: string)
    requires i <= |GroupLines(groups)| && InsertAt(GroupLines(groups), i, line) == GroupLines(after)
    ensures InsertAt(LogLines(groups), 2 + i, line) == LogLines(after)
  {
    InsertBehind([LOG_TITLE, ""], GroupLines(groups), i, line);
  }

  lemma NewGroupPlace(groups: seq<Group>)
    requires groups != []
    ensures GroupPlace(LogLines(groups)) == 2
  {
    TopHoldsNoSection();
    SkipToSection([LOG_TITLE, ""], GroupLines(groups));
    GroupLinesSplit(groups);
    HeadingIsSection(groups[0].date);
    assert FirstSection(GroupLines(groups)) == 0;
  }

  lemma NewGroupLines(groups: seq<Group>, date: string, line: string)
    requires groups != []
    ensures var lines := LogLines(groups);
            lines[..2] + [DateHeading(date), line, ""] + lines[2..] == LogLines([Group(date, [line])] + groups)
  {
    var after := [Group(date, [line])] + groups;
    GroupLinesSplit(after);
    assert after[1..] == groups;
    assert Leading(after) == [line, ""];
    assert LogLines(groups)[..2] == [LOG_TITLE, ""] && LogLines(groups)[2..] == GroupLines(groups);
  }

  /** Appending to a rendered log renders the log with the line added: re-reading loses nothing. */
  lemma AppendRenders(groups: seq<Group>, date: string, line: string)
    requires groups != [] && AllWellFormed(groups) && IsIsoDate(date) && IsEntry(line)
    ensures Appended(Render(groups), date, line) == Render(Added(groups, date, line))
  {
    LogReadsBack(groups);
    LogIsNotBlank(groups);
    AddedWellFormed(groups, date, line);
    FindsHeading(groups, date, line);
    PrependedLength(groups, date, line);
    FinishRenders(Added(groups, date, line));
    NewGroupPlace(groups);
    NewGroupLines(groups, date, line);
  }

  /** The first append starts the log. */
  lemma FirstAppendRenders(existing: string, date: string, line: string)
    requires Trim(existing) == []
    ensures Appended(existing, date, line) == Render([Group(date, [line])])
  {
    var heading := DateHeading(date);
    OneGroupLines(date, line);
    FourLines(LOG_TITLE, "", heading, line);
    assert LOG_TITLE + "\n\n" + heading + "\n" + line + "\n"
        == LOG_TITLE + "\n" + "" + "\n" + heading + "\n" + line + "\n";
  }

  lemma OneGroupLines(date: string, line: string)
    ensures LogLines([Group(date, [line])]) == [LOG_TITLE, "", DateHeading(date), line]
  {
    var groups := [Group(date, [line])];
    assert GroupLines(groups[1..]) == [];
    assert Leading(groups) == [line];
  }

  lemma FourLines(a: string, b: string, c: string, d: string)
    ensures Unlines([a, b, c, d]) == a + "\n" + b + "\n" + c + "\n" + d + "\n"
  {
    UnlinesConcat([a, b], [c, d]);
    assert [a, b, c, d] == [a, b] + [c, d];
    TwoLines(a, b);
    TwoLines(c, d);
  }

  lemma TwoLines(a: string, b: string)
    ensures Unlines([a, b]) == a + "\n" + b + "\n"
  {
    assert [a, b][1..] == [b] && [b][1..] == [];
    assert Unlines([b]) == b + "\n";
  }

  // ---------------------------------------------------------------------------
  // Folding appends from the empty log.
  // ---------------------------------------------------------------------------

  predicate Loggable(a: Append) {
    IsIsoDate(a.date) && IsEntry(a.line)
  }

  ghost predicate AllLoggable(appends: seq<Append>) {
    forall a | a in appends :: Loggable(a)
  }

  /** The text of the log after `appends`, each of them re-reading the text the one before it left. */
  function Fold(appends: seq<Append>): string {
    FoldWith(Appended, appends)
  }

  function Groups(appends: seq<Append>): seq<Group> {
    if appends == [] then []
    else
      var last := appends[|appends| - 1];
      Added(Groups(appends[..|appends| - 1]), last.date, last.line)
  }

  /** The text is always the printed form of the groups. */
  lemma {:induction false} FoldRendersGroups(appends: seq<Append>)
    requires AllLoggable(appends)
    ensures AllWellFormed(Groups(appends))
    ensures appends != [] ==> Groups(appends) != [] && Fold(appends) == Render(Groups(appends))
  {
    if appends != [] {
      var init, last := appends[..|appends| - 1], appends[|appends| - 1];
      assert Loggable(last);
      FoldRendersGroups(init);
      assert Fold(appends) == Appended(Fold(init), last.date, last.line);
      AddedWellFormed(Groups(init), last.date, last.line);
      PrependedLength(Groups(init), last.date, last.line);
      if init == [] {
        FirstAppendRenders("", last.date, last.line);
        assert FoldWith(Appended, init) == "";
        assert Added(Groups(init), last.date, last.line) == [Group(last.date, [last.line])];
      } else {
        AppendRenders(Groups(init), last.date, last.line);
      }
    }
  }

  ghost predicate DistinctDates(groups: seq<Group>) {
    forall i, j | 0 <= i < j < |groups| :: groups[i].date != groups[j].date
  }

  /** The entries filed under `date`, top to bottom. */
  function EntriesUnder(groups: seq<Group>, date: string): seq<string> {
    if groups == [] then [] else if groups[0].date == date then groups[0].entries else EntriesUnder(groups[1..], date)
  }

  /** The lines appended under `date`, last one first. */
  function NewestFirst(appends: seq<Append>, date: string): seq<string> {
    if appends == [] then []
    else
      var last := appends[|appends| - 1];
      (if last.date == date then [last.line] else []) + NewestFirst(appends[..|appends| - 1], date)
  }

  lemma {:induction false} PrependedDates(groups: seq<Group>, date: string, line: string)
    ensures |Prepended(groups, date, line)| == |groups|
    ensures forall i | 0 <= i < |groups| :: Prepended(groups, date, line)[i].date == groups[i].date
  {
    if groups != [] {
      PrependedDates(groups[1..], date, line);
    }
  }

  lemma {:induction false} PrependedEntries(groups: seq<Group>, date: string, line: string, d: string)
    requires HasDate(groups, date)
    ensures EntriesUnder(Prepended(groups, date, line), d)
        == (if d == date then [line] else []) + EntriesUnder(groups, d)
  {
    HasDateStep(groups, date);
    if groups[0].date != date {
      PrependedEntries(groups[1..], date, line, d);
      var after := Prepended(groups, date, line);
      assert after[1..] == Prepended(groups[1..], date, line);
    } else {
      assert Prepended(groups, date, line)[1..] == groups[1..];
    }
  }

  lemma {:induction false} NoEntriesUnder(groups: seq<Group>, date: string)
    requires !HasDate(groups, date)
    ensures EntriesUnder(groups, date) == []
  {
    if groups != [] {
      HasDateStep(groups, date);
      NoEntriesUnder(groups[1..], date);
    }
  }

  lemma AddedEntries(groups: seq<Group>, date: string, line: string, d: string)
    ensures EntriesUnder(Added(groups, date, line), d) == (if d == date then [line] else []) + EntriesUnder(groups, d)
  {
    if HasDate(groups, date) {
      PrependedEntries(groups, date, line, d);
    } else {
      NoEntriesUnder(groups, date);
      assert Added(groups, date, line)[1..] == groups;
    }
  }

  lemma AddedDates(groups: seq<Group>, date: string, line: string)
    requires DistinctDates(groups)
    ensures DistinctDates(Added(groups, date, line))
    ensures forall d :: HasDate(Added(groups, date, line), d) <==> d == date || HasDate(groups, d)
  {
    PrependedDates(groups, date, line);
    var after := Added(groups, date, line);
    forall d
      ensures HasDate(after, d) <==> d == date || HasDate(groups, d)
    {
      if HasDate(groups, date) {
        assert forall i | 0 <= i < |groups| :: after[i].date == groups[i].date;
      } else {
        HasDateStep(after, d);
        assert after[1..] == groups;
      }
    }
  }

  /**
   However the dates come, each has exactly one heading, which stands exactly when
   a line was appended under it, above those lines in reverse order of appending.
   */
  lemma {:induction false} OneHeadingPerDate(appends: seq<Append>)
    ensures DistinctDates(Groups(appends))
    ensures forall d :: HasDate(Groups(appends), d) <==> NewestFirst(appends, d) != []
    ensures forall d :: EntriesUnder(Groups(appends), d) == NewestFirst(appends, d)
  {
    if appends != [] {
      var init, last := appends[..|appends| - 1], appends[|appends| - 1];
      OneHeadingPerDate(init);
      AddedDates(Groups(init), last.date, last.line);
      forall d
        ensures EntriesUnder(Groups(appends), d) == NewestFirst(appends, d)
      {
        AddedEntries(Groups(init), last.date, last.line, d);
      }
    }
  }

  predicate Later(a: string, b: string) {
    a != b && StringLeq(b, a)
  }

  ghost predicate Descending(groups: seq<Group>) {
    forall i, j | 0 <= i < j < |groups| :: Later(groups[i].date, groups[j].date)
  }

  predicate Uses(appends: seq<Append>, date: string) {
    exists i :: 0 <= i < |appends| && appends[i].date == date
  }

  /** Every date is later, when it first comes, than the dates before it. */
  ghost predicate FirstUsesAscend(appends: seq<Append>) {
    forall i | 0 <= i < |appends| && !Uses(appends[..i], appends[i].date) ::
      forall j | 0 <= j < i :: Later(appends[i].date, appends[j].date)
  }

  lemma FirstUsesAscendStep(appends: seq<Append>)
    requires appends != []
    ensures var init, last := appends[..|appends| - 1], appends[|appends| - 1].date;
            FirstUsesAscend(appends) <==>
            FirstUsesAscend(init) && (Uses(init, last) || forall j | 0 <= j < |init| :: Later(last, init[j].date))
  {
    var n := |appends| - 1;
    var init, last := appends[..n], appends[n].date;
    forall i | 0 <= i < n
      ensures appends[..i] == init[..i]
    {
    }
    assert appends[..n] == init;
  }

  lemma {:induction false} GroupsUse(appends: seq<Append>)
    ensures forall d :: HasDate(Groups(appends), d) <==> Uses(appends, d)
  {
    if appends != [] {
      var n := |appends| - 1;
      var init, last := appends[..n], appends[n];
      GroupsUse(init);
      OneHeadingPerDate(init);
      AddedDates(Groups(init), last.date, last.line);
      forall d
        ensures Uses(appends, d) <==> d == last.date || Uses(init, d)
      {
        if i :| 0 <= i < |init| && init[i].date == d {
          assert appends[i].date == d;
        }
        assert appends[n].date == last.date;
        if i :| 0 <= i < n && appends[i].date == d {
          assert init[i].date == d;
        }
      }
    }
  }

  lemma LatestOfAppends(appends: seq<Append>, date: string)
    requires forall i | 0 <= i < |Groups(appends)| :: Later(date, Groups(appends)[i].date)
    ensures forall j | 0 <= j < |appends| :: Later(date, appends[j].date)
  {
    GroupsUse(appends);
    forall j | 0 <= j < |appends|
      ensures Later(date, appends[j].date)
    {
      assert Uses(appends, appends[j].date);
      var i :| 0 <= i < |Groups(appends)| && Groups(appends)[i].date == appends[j].date;
    }
  }

  lemma LatestOfGroups(appends: seq<Append>, date: string)
    requires forall j | 0 <= j < |appends| :: Later(date, appends[j].date)
    ensures forall i | 0 <= i < |Groups(appends)| :: Later(date, Groups(appends)[i].date)
  {
    GroupsUse(appends);
    forall i | 0 <= i < |Groups(appends)|
      ensures Later(date, Groups(appends)[i].date)
    {
      assert HasDate(Groups(appends), Groups(appends)[i].date);
      var j :| 0 <= j < |appends| && appends[j].date == Groups(appends)[i].date;
    }
  }

  /** The headings descend exactly when every date is, when it first comes, the latest so far. */
  lemma {:induction false} HeadingsDescend(appends: seq<Append>)
    ensures Descending(Groups(appends)) <==> FirstUsesAscend(appends)
  {
    if appends != [] {
      var init, last := appends[..|appends| - 1], appends[|appends| - 1];
      var before, after := Groups(init), Groups(appends);
      HeadingsDescend(init);
      FirstUsesAscendStep(appends);
      GroupsUse(init);
      if HasDate(before, last.date) {
        PrependedDates(before, last.date, last.line);
      } else {
        if forall i | 0 <= i < |before| :: Later(last.date, before[i].date) {
          LatestOfAppends(init, last.date);
        }
        if forall j | 0 <= j < |init| :: Later(last.date, init[j].date) {
          LatestOfGroups(init, last.date);
        }
        DescendingStep(before, last.date, last.line);
      }
    }
  }

  lemma DescendingStep(groups: seq<Group>, date: string, line: string)
    ensures Descending([Group(date, [line])] + groups) <==>
            Descending(groups) && forall i | 0 <= i < |groups| :: Later(date, groups[i].date)
  {
    var after := [Group(date, [line])] + groups;
    if Descending(after) {
      forall i | 0 <= i < |groups|
        ensures Later(date, groups[i].date)
      {
        assert after[0].date == date && after[i + 1] == groups[i];
      }
      forall i, j | 0 <= i < j < |groups|
        ensures Later(groups[i].date, groups[j].date)
      {
        assert after[i + 1] == groups[i] && after[j + 1] == groups[j];
      }
    }
  }

  // -- Dates that never go back ---------------------------------------------------

  function AllEntries(groups: seq<Group>): seq<string> {
    if groups == [] then [] else groups[0].entries + AllEntries(groups[1..])
  }

  function ReversedLines(appends: seq<Append>): seq<string> {
    if appends == [] then [] else [appends[|appends| - 1].line] + ReversedLines(appends[..|appends| - 1])
  }

  lemma AscendingDates(appends: seq<Append>)
    requires NonDecreasing(appends)
    ensures FirstUsesAscend(appends)
  {
    forall i, j | 0 <= j < i < |appends| && !Uses(appends[..i], appends[i].date)
      ensures Later(appends[i].date, appends[j].date)
    {
      assert appends[..i][j].date == appends[j].date;
    }
  }

  lemma LatestLeads(groups: seq<Group>, date: string)
    requires Descending(groups) && HasDate(groups, date) && groups != [] && StringLeq(groups[0].date, date)
    ensures groups[0].date == date
  {
    var i :| 0 <= i < |groups| && groups[i].date == date;
    if i > 0 {
      assert Later(groups[0].date, groups[i].date);
      StringLeqTotal(groups[0].date, date);
    }
  }

  lemma NewGroupLeads(groups: seq<Group>, date: string, line: string)
    ensures AllEntries([Group(date, [line])] + groups) == [line] + AllEntries(groups)
  {
    assert ([Group(date, [line])] + groups)[1..] == groups;
  }

  lemma FirstGroupGrows(groups: seq<Group>, date: string, line: string)
    requires groups != []
    ensures AllEntries([Group(date, [line] + groups[0].entries)] + groups[1..]) == [line] + AllEntries(groups)
  {
    assert ([Group(date, [line] + groups[0].entries)] + groups[1..])[1..] == groups[1..];
    assert ([line] + groups[0].entries) + AllEntries(groups[1..])
        == [line] + (groups[0].entries + AllEntries(groups[1..]));
  }

  lemma AddedLeads(groups: seq<Group>, date: string, line: string)
    requires Descending(groups) && (groups != [] ==> StringLeq(groups[0].date, date))
    ensures var after := Added(groups, date, line);
            after != [] && after[0].date == date && AllEntries(after) == [line] + AllEntries(groups)
  {
    if HasDate(groups, date) {
      LatestLeads(groups, date);
      FirstGroupGrows(groups, date, line);
    } else {
      NewGroupLeads(groups, date, line);
    }
  }

  lemma {:induction false} EntriesReverse(appends: seq<Append>)
    requires NonDecreasing(appends)
    ensures AllEntries(Groups(appends)) == ReversedLines(appends)
    ensures appends != [] ==> Groups(appends) != [] && Groups(appends)[0].date == appends[|appends| - 1].date
  {
    if appends != [] {
      var n := |appends| - 1;
      var init, last := appends[..n], appends[n];
      assert forall i, j | 0 <= i < j < |init| :: init[i] == appends[i] && init[j] == appends[j];
      EntriesReverse(init);
      AscendingDates(init);
      HeadingsDescend(init);
      assert n > 0 ==> StringLeq(appends[n - 1].date, appends[n].date);
      AddedLeads(Groups(init), last.date, last.line);
    }
  }

  /**
   Appending under dates that never go back: the log is printed from groups with one
   heading per date, newest date first, whose entries from top to bottom are the
   appended lines in exactly the reverse order.
   */
  lemma NewestFirstLog(appends: seq<Append>)
    requires appends != [] && AllLoggable(appends) && NonDecreasing(appends)
    ensures Fold(appends) == Render(Groups(appends)) && Lines(Fold(appends)) == LogLines(Groups(appends))
    ensures DistinctDates(Groups(appends)) && Descending(Groups(appends))
    ensures AllEntries(Groups(appends)) == ReversedLines(appends)
  {
    FoldRendersGroups(appends);
    LogReadsBack(Groups(appends));
    OneHeadingPerDate(appends);
    AscendingDates(appends);
    HeadingsDescend(appends);
    EntriesReverse(appends);
  }

  /** A date that goes back lands above the later one, so the hypothesis is needed. */
  lemma BackdatedAppend(a: Append, b: Append)
    requires Later(a.date, b.date)
    ensures !Descending(Groups([a, b]))
  {
    var appends := [a, b];
    assert appends[..1] == [a];
    StringLeqTotal(a.date, b.date);
    assert !Uses(appends[..1], appends[1].date) && !Later(appends[1].date, appends[0].date);
    HeadingsDescend(appends);
  }

  // -- Appending to any text --------------------------------------------------------------

  predicate DateAt(lines: seq<string>, pos: nat, date: string) {
    pos < |lines| && Trim(lines[pos]) == "## " + date
  }

  predicate GroupAt(lines: seq<string>, pos: nat) {
    pos < |lines| && StartsWith(TrimStart(lines[pos]), "## ")
  }

  predicate TitleAt(lines: seq<string>, pos: nat) {
    pos < |lines| && Trim(lines[pos]) == "# Update Log"
  }

  /** Where the new lines go: below the first heading of the date, alone; else, as a group, above the first
      heading, else right below the title, else at the top. */
  ghost predicate GoesTo(lines: seq<string>, date: string, pos: nat, known: bool) {
    if exists i: nat :: DateAt(lines, i, date) then
      known && 0 < pos && DateAt(lines, pos - 1, date) && forall i: nat | i < pos - 1 :: !DateAt(lines, i, date)
    else
      && !known
      && if exists i: nat :: GroupAt(lines, i) then GroupAt(lines, pos) && forall i: nat | i < pos :: !GroupAt(lines, i)
         else if exists i: nat :: TitleAt(lines, i) then
           0 < pos && TitleAt(lines, pos - 1) && forall i: nat | i < pos - 1 :: !TitleAt(lines, i)
         else pos == 0
  }

  /** The text ends with one line feed, whether its last line is blank or not. */
  function WithoutLastBlank(lines: seq<string>): seq<string> {
    if lines != [] && lines[|lines| - 1] == "" then lines[..|lines| - 1] else lines
  }

  lemma {:induction false} FirstTrimmedIs(lines: seq<string>, wanted: string, k: nat)
    requires k <= |lines| && (k < |lines| ==> Trim(lines[k]) == wanted)
    requires forall i: nat | i < k :: Trim(lines[i]) != wanted
    ensures FirstTrimmed(lines, wanted) == k
  {
    if k > 0 {
      assert forall i: nat | i < k - 1 :: lines[1..][i] == lines[i + 1];
      FirstTrimmedIs(lines[1..], wanted, k - 1);
    }
  }

  lemma {:induction false} FirstSectionIs(lines: seq<string>, k: nat)
    requires k <= |lines| && (k < |lines| ==> GroupAt(lines, k))
    requires forall i: nat | i < k :: !GroupAt(lines, i)
    ensures FirstSection(lines) == k
  {
    if k > 0 {
      assert !GroupAt(lines, 0);
      forall i: nat | i < k - 1
        ensures !GroupAt(lines[1..], i)
      {
        assert !GroupAt(lines, i + 1);
      }
      assert k < |lines| ==> GroupAt(lines, k) && GroupAt(lines[1..], k - 1);
      FirstSectionIs(lines[1..], k - 1);
    }
  }

  lemma LastBlankJoins(lines: seq<string>)
    requires lines != []
    ensures Join(lines + [""]) == Unlines(lines)
  {
    JoinIsUnlines(lines + [""]);
    UnlinesConcat(lines, [""]);
    assert Unlines([""]) == "\n" by {
      assert [""][1..] == [];
    }
    assert (Join(lines + [""]) + "\n")[..|Join(lines + [""])|] == Join(lines + [""]);
    assert (Unlines(lines) + "\n")[..|Unlines(lines)|] == Unlines(lines);
  }

  lemma {:induction false} UnlinesEnds(lines: seq<string>)
    requires lines != []
    ensures Unlines(lines) != [] && Unlines(lines)[|Unlines(lines)| - 1] == '\n'
  {
    if |lines| == 1 {
      assert Unlines(lines) == lines[0] + "\n" + "";
    } else {
      UnlinesEnds(lines[1..]);
    }
  }

  lemma FinishedReads(lines: seq<string>)
    requires |lines| >= 2 && forall l | l in lines :: OneLine(l)
    ensures Lines(FinishLog(lines)) == WithoutLastBlank(lines)
  {
    var n := |lines| - 1;
    if lines[n] == "" {
      assert lines == lines[..n] + [""];
      LastBlankJoins(lines[..n]);
      UnlinesEnds(lines[..n]);
      LinesOfUnlines(lines[..n]);
    } else {
      assert OneLine(lines[n]);
      FinishIsUnlines(lines);
      LinesOfUnlines(lines);
    }
  }

  lemma NoDateAt(lines: seq<string>, date: string)
    requires forall i: nat :: !DateAt(lines, i, date)
    ensures FirstTrimmed(lines, DateHeading(date)) == |lines|
  {
    forall i: nat | i < |lines|
      ensures Trim(lines[i]) != DateHeading(date)
    {
      assert !DateAt(lines, i, date);
    }
    FirstTrimmedIs(lines, DateHeading(date), |lines|);
  }

  lemma DateIsAt(lines: seq<string>, date: string, k: nat)
    requires DateAt(lines, k, date) && forall i: nat | i < k :: !DateAt(lines, i, date)
    ensures FirstTrimmed(lines, DateHeading(date)) == k
  {
    forall i: nat | i < k
      ensures Trim(lines[i]) != DateHeading(date)
    {
      assert !DateAt(lines, i, date);
    }
    FirstTrimmedIs(lines, DateHeading(date), k);
  }

  lemma TitleIsAt(lines: seq<string>, k: nat)
    requires k <= |lines| && (k < |lines| ==> TitleAt(lines, k)) && forall i: nat | i < k :: !TitleAt(lines, i)
    ensures FirstTrimmed(lines, LOG_TITLE) == k
  {
    forall i: nat | i < k
      ensures Trim(lines[i]) != LOG_TITLE
    {
      assert !TitleAt(lines, i);
    }
    FirstTrimmedIs(lines, LOG_TITLE, k);
  }

  lemma GroupGoesTo(lines: seq<string>, date: string, pos: nat)
    requires pos <= |lines| && GoesTo(lines, date, pos, false)
    ensures GroupPlace(lines) == pos
  {
    if exists i: nat :: GroupAt(lines, i) {
      FirstSectionIs(lines, pos);
    } else {
      FirstSectionIs(lines, |lines|);
      if exists i: nat :: TitleAt(lines, i) {
        TitleIsAt(lines, pos - 1);
      } else {
        TitleIsAt(lines, |lines|);
      }
    }
  }

  function AddedLines(date: string, line: string, known: bool): seq<string> {
    if known then [line] else ["## " + date, line, ""]
  }

  lemma AppendedAt(existing: string, date: string, line: string, pos: nat, known: bool)
    requires Trim(existing) != [] && pos <= |Lines(existing)|
    requires var k := FirstTrimmed(Lines(existing), DateHeading(date));
             if known then k == pos - 1 else k == |Lines(existing)| && GroupPlace(Lines(existing)) == pos
    ensures var lines := Lines(existing);
            Appended(existing, date, line) == FinishLog(lines[..pos] + AddedLines(date, line, known) + lines[pos..])
  {
  }

  lemma AppendedIs(existing: string, date: string, line: string, pos: nat, known: bool)
    requires Trim(existing) != [] && pos <= |Lines(existing)| && GoesTo(Lines(existing), date, pos, known)
    ensures var lines := Lines(existing);
            Appended(existing, date, line) == FinishLog(lines[..pos] + AddedLines(date, line, known) + lines[pos..])
  {
    if known {
      DateIsAt(Lines(existing), date, pos - 1);
    } else {
      NoDateAt(Lines(existing), date);
      GroupGoesTo(Lines(existing), date, pos);
    }
    AppendedAt(existing, date, line, pos, known);
  }

  /**
   Appending to any text that is not blank keeps all its lines and adds the new ones in
   one place: the line alone where the date has a heading, else a group of its own.
   */
  lemma AppendedReads(existing: string, date: string, line: string, pos: nat, known: bool)
    requires Trim(existing) != [] && pos <= |Lines(existing)| && GoesTo(Lines(existing), date, pos, known)
    requires forall l | l in Lines(existing) :: OneLine(l)
    requires OneLine(line) && OneLine("## " + date)
    ensures var lines := Lines(existing);
            Lines(Appended(existing, date, line))
            == WithoutLastBlank(lines[..pos] + AddedLines(date, line, known) + lines[pos..])
  {
    var lines := Lines(existing);
    AppendedIs(existing, date, line, pos, known);
    NotBlankHasLines(existing);
    InsertedStayLines(lines, AddedLines(date, line, known), pos);
    FinishedReads(lines[..pos] + AddedLines(date, line, known) + lines[pos..]);
  }

  lemma InsertedStayLines(lines: seq<string>, added: seq<string>, pos: nat)
    requires pos <= |lines| && (forall l | l in lines :: OneLine(l)) && forall l | l in added :: OneLine(l)
    ensures forall l | l in lines[..pos] + added + lines[pos..] :: OneLine(l)
  {
    forall l | l in lines[..pos] + added + lines[pos..]
      ensures l in lines || l in added
    {
    }
  }

  lemma NotBlankHasLines(existing: string)
    requires Trim(existing) != []
    ensures Lines(existing) != []
  {
    assert TrimStart("") == "";
  }

  lemma StarIsEntry(rest: string)
    requires '\n' !in rest && (rest == [] || rest[|rest| - 1] != '\r')
    ensures IsEntry("*" + rest)
  {
    var line := "*" + rest;
    assert line[0] == '*' && line[1..] == rest;
    assert TrimStart(line) == line;
  }

  /** What `append_log` writes is an entry whenever its three parts stay on one line. */
  lemma LogLineIsEntry(action: string, title: string, id: string)
    requires '\n' !in action && '\n' !in title && '\n' !in id
    ensures IsEntry("* **" + action + "**: [" + title + "](/" + id + ".md)")
  {
    var rest := " **" + action + "**: [" + title + "](/" + id + ".md)";
    assert rest[|rest| - 1] == ')';
    StarIsEntry(rest);
    assert "* **" + action + "**: [" + title + "](/" + id + ".md)" == "*" + rest;
  }

  lemma EmptyLogIsGuarded(today: string, appenders: map<nat, Appender>)
    requires forall p: nat | p in appenders :: appenders[p].Idle? || appenders[p].Waiting?
    ensures Guarded(Appended, Shared("", today, None, appenders, []))
  {
  }

  /**
   Under the lock, whatever the interleaving of appenders, stops and new days, the
   log reads newest first: nobody's line is lost, doubled or out of order.
   */
  lemma LockedLogReadsNewestFirst(s: Shared, turns: seq<Turn>)
    requires Guarded(Appended, s)
    requires AllLoggable(TakeAll(Appended, s, turns).written) && TakeAll(Appended, s, turns).written != []
    ensures var t := TakeAll(Appended, s, turns);
            var groups := Groups(t.written);
            && s.written <= t.written
            && t.file == Render(groups) && DistinctDates(groups) && Descending(groups)
              && AllEntries(groups) == ReversedLines(t.written)
  {
    LockedAppendsFold(Appended, s, turns);
    NewestFirstLog(TakeAll(Appended, s, turns).written);
  }

  /** The same from an empty log, with whatever programs about to append. */
  lemma FreshLogReadsNewestFirst(today: string, appenders: map<nat, Appender>, turns: seq<Turn>)
    requires forall p: nat | p in appenders :: appenders[p].Idle? || appenders[p].Waiting?
    requires AllLoggable(TakeAll(Appended, Shared("", today, None, appenders, []), turns).written)
    requires TakeAll(Appended, Shared("", today, None, appenders, []), turns).written != []
    ensures var t := TakeAll(Appended, Shared("", today, None, appenders, []), turns);
            var groups := Groups(t.written);
            && t.file == Render(groups) && DistinctDates(groups) && Descending(groups)
            && AllEntries(groups) == ReversedLines(t.written)
  {
    EmptyLogIsGuarded(today, appenders);
    LockedLogReadsNewestFirst(Shared("", today, None, appenders, []), turns);
  }
}
