/**
 The rows of the index, grouped by section, and the pass that reads rows back from
 lines. How one line reads is a parameter, so everything here holds for any layout.
 */
module IndexRows {
  import opened Basics
  import opened Sorting

  /** A sort key and an entry line. */
  datatype Row = Row(key: string, line: string)

  /** A row and the section it stands in. */
  datatype Placed = Placed(section: string, row: Row)

  type Groups = map<string, seq<Row>>

  function Push(groups: Groups, placed: Placed): Groups {
    groups[placed.section := (if placed.section in groups then groups[placed.section] else []) + [placed.row]]
  }

  function Grouped(rows: seq<Placed>): Groups {
    if rows == [] then map[] else Push(Grouped(rows[..|rows| - 1]), rows[|rows| - 1])
  }

  lemma GroupedOne(rows: seq<Placed>, placed: Placed)
    ensures Grouped(rows + [placed]) == Push(Grouped(rows), placed)
  {
    assert (rows + [placed])[..|rows|] == rows;
  }

  predicate RowLeq(a: Row, b: Row) {
    if a.key != b.key then StringLeq(a.key, b.key) else StringLeq(a.line, b.line)
  }

  lemma RowOrder()
    ensures Total(RowLeq)
    ensures forall a, b :: RowLeq(a, b) && RowLeq(b, a) ==> a == b
  {
    StringOrder();
  }

  /** The rows of a section in printing order. */
  function Arranged(rows: seq<Row>): (r: seq<Row>)
    ensures multiset(r) == multiset(rows)
  {
    Sort(rows, RowLeq)
  }

  /** Within a section the titles ascend, letter case aside, and equal titles come by their lines. */
  lemma ArrangedAscends(rows: seq<Row>)
    ensures var r := Arranged(rows);
            forall i, j | 0 <= i < j < |r| :: StringLeq(r[i].key, r[j].key)
                && (r[i].key == r[j].key ==> StringLeq(r[i].line, r[j].line))
  {
    var r := Arranged(rows);
    RowOrder();
    SortSorts(rows, RowLeq);
    forall i, j | 0 <= i < j < |r|
      ensures StringLeq(r[i].key, r[j].key) && (r[i].key == r[j].key ==> StringLeq(r[i].line, r[j].line))
    {
      assert RowLeq(r[i], r[j]);
      StringLeqTotal(r[i].key, r[j].key);
    }
  }

  predicate IsLeast(x: string, names: set<string>) {
    x in names && forall y | y in names :: StringLeq(x, y)
  }

  lemma LeastWith(x: string, m: string, rest: set<string>)
    requires IsLeast(m, rest)
    ensures IsLeast(if StringLeq(x, m) then x else m, rest + {x})
  {
    StringLeqTotal(x, m);
    StringLeqTotal(x, x);
    forall y | y in rest + {x}
      ensures StringLeq(if StringLeq(x, m) then x else m, y)
    {
      if y != x && StringLeq(x, m) {
        StringLeqTransitive(x, m, y);
      }
    }
  }

  lemma {:induction false} LeastExists(names: set<string>)
    requires names != {}
    ensures exists x :: x in names && IsLeast(x, names)
  {
    var x :| x in names;
    var rest := names - {x};
    if rest == {} {
      StringLeqTotal(x, x);
      assert forall y | y in names :: y == x || y in rest;
      assert IsLeast(x, names);
    } else {
      LeastExists(rest);
      var m :| m in rest && IsLeast(m, rest);
      LeastWith(x, m, rest);
      assert rest + {x} == names;
    }
  }

  lemma OneLeast(names: set<string>)
    ensures forall a, b :: IsLeast(a, names) && IsLeast(b, names) ==> a == b
  {
    forall a, b | IsLeast(a, names) && IsLeast(b, names)
      ensures a == b
    {
      StringLeqTotal(a, b);
    }
  }

  /** The keys of a `BTreeMap` in the order it is walked. */
  function SortedKeys(names: set<string>): (keys: seq<string>)
    ensures forall k :: k in keys <==> k in names
    ensures forall i, j | 0 <= i < j < |keys| :: keys[i] != keys[j]
  {
    if names == {} then []
    else
      LeastExists(names);
      OneLeast(names);
      var x :| x in names && IsLeast(x, names);
      [x] + SortedKeys(names - {x})
  }

  /** Sections come in ascending order. */
  lemma {:induction false} KeysAscend(names: set<string>)
    ensures var keys := SortedKeys(names); forall i, j | 0 <= i < j < |keys| :: StringLeq(keys[i], keys[j])
  {
    if names != {} {
      var keys := SortedKeys(names);
      OneLeast(names);
      LeastExists(names);
      var x :| x in names && IsLeast(x, names);
      assert keys == [x] + SortedKeys(names - {x});
      KeysAscend(names - {x});
      forall j | 0 < j < |keys|
        ensures StringLeq(keys[0], keys[j])
      {
        assert keys[j] in keys;
      }
    }
  }

  // -- Rows and groups ------------------------------------------------------------

  predicate HasSection(rows: seq<Placed>, section: string) {
    exists i :: 0 <= i < |rows| && rows[i].section == section
  }

  lemma HasSectionStep(rows: seq<Placed>, section: string)
    requires rows != []
    ensures HasSection(rows, section)
        <==> rows[|rows| - 1].section == section || HasSection(rows[..|rows| - 1], section)
  {
    var init := rows[..|rows| - 1];
    if i :| 0 <= i < |rows| - 1 && rows[i].section == section {
      assert init[i].section == section;
    }
    if i :| 0 <= i < |init| && init[i].section == section {
      assert rows[i].section == section;
    }
  }

  lemma CountLast(rows: seq<Placed>, placed: Placed)
    requires rows != []
    ensures multiset(rows)[placed] == multiset(rows[..|rows| - 1])[placed]
        + (if rows[|rows| - 1] == placed then 1 else 0)
  {
    assert rows == rows[..|rows| - 1] + [rows[|rows| - 1]];
  }

  /** A group holds exactly the rows placed in its section. */
  lemma {:induction false} GroupedCounts(rows: seq<Placed>, section: string, row: Row)
    ensures section in Grouped(rows) <==> HasSection(rows, section)
    ensures section in Grouped(rows) ==> Grouped(rows)[section] != []
    ensures multiset(rows)[Placed(section, row)] == if section in Grouped(rows)
        then multiset(Grouped(rows)[section])[row] else 0
  {
    if rows != [] {
      GroupedCounts(rows[..|rows| - 1], section, row);
      HasSectionStep(rows, section);
      CountLast(rows, Placed(section, row));
    }
  }

  lemma SectionKept(a: seq<Placed>, b: seq<Placed>, section: string)
    requires multiset(a) == multiset(b) && HasSection(a, section)
    ensures HasSection(b, section)
  {
    SameElements(a, b);
    var i :| 0 <= i < |a| && a[i].section == section;
    assert a[i] in b;
    var j :| 0 <= j < |b| && b[j] == a[i];
  }

  lemma SameSections(a: seq<Placed>, b: seq<Placed>)
    requires multiset(a) == multiset(b)
    ensures Grouped(a).Keys == Grouped(b).Keys
  {
    forall section
      ensures section in Grouped(a) <==> section in Grouped(b)
    {
      GroupedCounts(a, section, Row("", ""));
      GroupedCounts(b, section, Row("", ""));
      if HasSection(a, section) {
        SectionKept(a, b, section);
      }
      if HasSection(b, section) {
        SectionKept(b, a, section);
      }
    }
  }

  /** Each section prints the same rows in the same order whatever order they came in. */
  lemma SameArranged(a: seq<Placed>, b: seq<Placed>, section: string)
    requires multiset(a) == multiset(b) && section in Grouped(a) && section in Grouped(b)
    ensures Arranged(Grouped(a)[section]) == Arranged(Grouped(b)[section])
  {
    forall row
      ensures multiset(Grouped(a)[section])[row] == multiset(Grouped(b)[section])[row]
    {
      GroupedCounts(a, section, row);
      GroupedCounts(b, section, row);
    }
    assert multiset(Grouped(a)[section]) == multiset(Grouped(b)[section]);
    RowOrder();
    SortForgetsOrder(Grouped(a)[section], Grouped(b)[section], RowLeq);
  }

  lemma GroupsAreNotEmpty(rows: seq<Placed>)
    ensures forall k | k in Grouped(rows) :: Grouped(rows)[k] != []
    ensures Grouped(rows) == map[] <==> rows == []
  {
    forall k | k in Grouped(rows)
      ensures Grouped(rows)[k] != []
    {
      GroupedCounts(rows, k, Row("", ""));
    }
    if rows != [] {
      GroupedCounts(rows, rows[0].section, rows[0].row);
    }
  }

  // -- Reading rows from lines --------------------------------------------------------

  /** What a line of the index says. */
  datatype Token = Heading(section: string) | Listed(row: Row, target: string) | Other

  type Reader = string -> Token

  predicate Wanted(read: Reader, line: string, targets: set<string>) {
    read(line).Listed? && read(line).target in targets
  }

  /** What re-reading carries over: the first line for every failed path, in the section it stands in. */
  function Carry(read: Reader, lines: seq<string>, current: string, carried: set<string>,
      failed: set<string>): seq<Placed>
    decreases |lines|
  {
    if lines == [] then []
    else
      match read(lines[0])
      case Heading(section) => Carry(read, lines[1..], section, carried, failed)
      case Other => Carry(read, lines[1..], current, carried, failed)
      case Listed(row, target) =>
        if target in failed && target !in carried then
          [Placed(current, row)] + Carry(read, lines[1..], current, carried + {target}, failed)
        else Carry(read, lines[1..], current, carried, failed)
  }

  /** The row a line adds under `current`, if its target is wanted. */
  function RowAt(read: Reader, line: string, current: string, targets: set<string>): seq<Placed> {
    if Wanted(read, line, targets) then [Placed(current, read(line).row)] else []
  }

  function SectionAfter(read: Reader, line: string, current: string): string {
    if read(line).Heading? then read(line).section else current
  }

  /** Every row whose target is wanted, under the section it stands in. */
  function Scan(read: Reader, lines: seq<string>, current: string, targets: set<string>): seq<Placed>
    decreases |lines|
  {
    if lines == [] then []
    else RowAt(read, lines[0], current, targets) + Scan(read, lines[1..], SectionAfter(read, lines[0], current),
      targets)
  }

  /** The section after reading `lines`. */
  function After(read: Reader, lines: seq<string>, current: string): string
    decreases |lines|
  {
    if lines == [] then current else After(read, lines[1..], SectionAfter(read, lines[0], current))
  }

  lemma {:induction false} ScanConcat(read: Reader, a: seq<string>, b: seq<string>, current: string,
      targets: set<string>)
    ensures Scan(read, a + b, current, targets) == Scan(read, a, current, targets)
        + Scan(read, b, After(read, a, current), targets)
    ensures After(read, a + b, current) == After(read, b, After(read, a, current))
    decreases |a|
  {
    if a == [] {
      assert a + b == b;
    } else {
      var next := SectionAfter(read, a[0], current);
      ScanConcat(read, a[1..], b, next, targets);
      assert (a + b)[1..] == a[1..] + b;
      Regroup(RowAt(read, a[0], current, targets), Scan(read, a[1..], next, targets),
        Scan(read, b, After(read, a[1..], next), targets));
    }
  }

  lemma ScanOne(read: Reader, line: string, current: string, targets: set<string>)
    ensures Scan(read, [line], current, targets) == RowAt(read, line, current, targets)
    ensures After(read, [line], current) == SectionAfter(read, line, current)
  {
    assert [line][1..] == [];
  }

  lemma {:induction false} ScanNothing(read: Reader, lines: seq<string>, current: string, targets: set<string>)
    requires forall l | l in lines :: read(l).Other?
    ensures Scan(read, lines, current, targets) == [] && After(read, lines, current) == current
    decreases |lines|
  {
    if lines != [] {
      assert lines[0] in lines;
      ScanNothing(read, lines[1..], current, targets);
    }
  }

  /** A head that lists nothing, and a blank line more or less at the end, change nothing. */
  lemma ScanFramed(read: Reader, text: seq<string>, head: seq<string>, body: seq<string>, current: string,
      targets: set<string>)
    requires read("").Other? && text + [""] == head + body
    requires forall l | l in head :: read(l).Other?
    ensures Scan(read, text, current, targets) == Scan(read, body, current, targets)
  {
    ScanConcat(read, text, [""], current, targets);
    ScanOne(read, "", After(read, text, current), targets);
    ScanNothing(read, head, current, targets);
    ScanConcat(read, head, body, current, targets);
  }

  // -- Carrying the first line per target -----------------------------------------------

  function TargetOf(read: Reader, placed: Placed): string {
    if read(placed.row.line).Listed? then read(placed.row.line).target else ""
  }

  /** The row found on a line reads the same again. */
  ghost predicate Stable(read: Reader, lines: seq<string>) {
    forall l | l in lines && read(l).Listed? :: read(read(l).row.line) == read(l)
  }

  /** Position `i` holds the first row for its target. */
  ghost predicate IsFirst(read: Reader, rows: seq<Placed>, i: int) {
    0 <= i < |rows| && forall j | 0 <= j < i :: TargetOf(read, rows[j]) != TargetOf(read, rows[i])
  }

  ghost predicate DistinctTargets(read: Reader, rows: seq<Placed>) {
    forall i, j | 0 <= i < j < |rows| :: TargetOf(read, rows[i]) != TargetOf(read, rows[j])
  }

  /** A row of `carried` is a first row of `scan` for a target not yet seen, and every such row is carried. */
  ghost predicate FirstOnes(read: Reader, carried: seq<Placed>, scan: seq<Placed>, seen: set<string>) {
    && (forall r | r in carried :: TargetOf(read, r) !in seen && exists i :: IsFirst(read, scan, i) && scan[i] == r)
    && (forall i | IsFirst(read, scan, i) && TargetOf(read, scan[i]) !in seen :: scan[i] in carried)
  }

  lemma SkipOne(read: Reader, carried: seq<Placed>, scan: seq<Placed>, seen: set<string>)
    requires scan != [] && TargetOf(read, scan[0]) in seen && FirstOnes(read, carried, scan[1..], seen)
    ensures FirstOnes(read, carried, scan, seen)
  {
    forall r | r in carried
      ensures exists i :: IsFirst(read, scan, i) && scan[i] == r
    {
      var i :| IsFirst(read, scan[1..], i) && scan[1..][i] == r;
      assert IsFirst(read, scan, i + 1);
    }
    forall i | IsFirst(read, scan, i) && TargetOf(read, scan[i]) !in seen
      ensures scan[i] in carried
    {
      assert scan[1..][i - 1] == scan[i];
      assert IsFirst(read, scan[1..], i - 1);
    }
  }

  lemma KeepOne(read: Reader, carried: seq<Placed>, scan: seq<Placed>, seen: set<string>)
    requires scan != [] && TargetOf(read, scan[0]) !in seen
    requires FirstOnes(read, carried, scan[1..], seen + {TargetOf(read, scan[0])})
    ensures FirstOnes(read, [scan[0]] + carried, scan, seen)
  {
    assert IsFirst(read, scan, 0);
    forall r | r in carried
      ensures exists i :: IsFirst(read, scan, i) && scan[i] == r
    {
      var i :| IsFirst(read, scan[1..], i) && scan[1..][i] == r;
      assert IsFirst(read, scan, i + 1);
    }
    forall i | IsFirst(read, scan, i) && TargetOf(read, scan[i]) !in seen
      ensures scan[i] in [scan[0]] + carried
    {
      if i > 0 {
        assert scan[1..][i - 1] == scan[i];
        assert IsFirst(read, scan[1..], i - 1);
        assert TargetOf(read, scan[0]) != TargetOf(read, scan[i]);
      }
    }
  }

  lemma DistinctWith(read: Reader, first: Placed, rest: seq<Placed>, scan: seq<Placed>, seen: set<string>)
    requires DistinctTargets(read, rest) && FirstOnes(read, rest, scan, seen) && TargetOf(read, first) in seen
    ensures DistinctTargets(read, [first] + rest)
  {
    forall j | 0 <= j < |rest|
      ensures TargetOf(read, rest[j]) != TargetOf(read, first)
    {
      assert rest[j] in rest;
    }
  }

  /** The pass keeps, for each failed path the old index lists, the first line that lists it. */
  lemma {:induction false} CarriesFirstOnes(read: Reader, lines: seq<string>, current: string, seen: set<string>,
      failed: set<string>)
    requires Stable(read, lines)
    ensures FirstOnes(read, Carry(read, lines, current, seen, failed), Scan(read, lines, current, failed), seen)
    ensures DistinctTargets(read, Carry(read, lines, current, seen, failed))
    decreases |lines|
  {
    if lines != [] {
      assert lines[0] in lines;
      var scan, next := Scan(read, lines, current, failed), SectionAfter(read, lines[0], current);
      var rest := Scan(read, lines[1..], next, failed);
      if Wanted(read, lines[0], failed) {
        var placed, target := Placed(current, read(lines[0]).row), read(lines[0]).target;
        assert scan == [placed] + rest && scan[1..] == rest && TargetOf(read, placed) == target;
        if target in seen {
          CarriesFirstOnes(read, lines[1..], current, seen, failed);
          SkipOne(read, Carry(read, lines[1..], current, seen, failed), scan, seen);
        } else {
          CarriesFirstOnes(read, lines[1..], current, seen + {target}, failed);
          KeepOne(read, Carry(read, lines[1..], current, seen + {target}, failed), scan, seen);
          DistinctWith(read, placed, Carry(read, lines[1..], current, seen + {target}, failed), rest, seen + {target});
        }
      } else {
        assert scan == rest;
        CarriesFirstOnes(read, lines[1..], next, seen, failed);
      }
    }
  }

  /** Where every target comes once, all rows are carried. */
  lemma {:induction false} CarriesAll(read: Reader, lines: seq<string>, current: string, seen: set<string>,
      failed: set<string>)
    requires Stable(read, lines)
    requires DistinctTargets(read, Scan(read, lines, current, failed))
    requires forall r | r in Scan(read, lines, current, failed) :: TargetOf(read, r) !in seen
    ensures Carry(read, lines, current, seen, failed) == Scan(read, lines, current, failed)
    decreases |lines|
  {
    if lines != [] {
      assert lines[0] in lines;
      var scan, next := Scan(read, lines, current, failed), SectionAfter(read, lines[0], current);
      var rest := Scan(read, lines[1..], next, failed);
      if Wanted(read, lines[0], failed) {
        var placed := Placed(current, read(lines[0]).row);
        assert scan == [placed] + rest;
        SplitDistinct(read, placed, rest, seen);
        CarriesAll(read, lines[1..], next, seen + {TargetOf(read, placed)}, failed);
        assert placed in scan;
      } else {
        assert scan == rest;
        CarriesAll(read, lines[1..], next, seen, failed);
      }
    }
  }

  lemma SplitDistinct(read: Reader, first: Placed, rest: seq<Placed>, seen: set<string>)
    requires DistinctTargets(read, [first] + rest)
    requires forall r | r in [first] + rest :: TargetOf(read, r) !in seen
    ensures DistinctTargets(read, rest)
    ensures forall r | r in rest :: TargetOf(read, r) !in seen + {TargetOf(read, first)}
  {
    var scan := [first] + rest;
    forall i, j | 0 <= i < j < |rest|
      ensures TargetOf(read, rest[i]) != TargetOf(read, rest[j])
    {
      assert rest[i] == scan[i + 1] && rest[j] == scan[j + 1];
    }
    forall r | r in rest
      ensures TargetOf(read, r) !in seen + {TargetOf(read, first)}
    {
      var j :| 0 <= j < |rest| && rest[j] == r;
      assert scan[j + 1] == r && r in scan;
      assert TargetOf(read, scan[0]) != TargetOf(read, scan[j + 1]);
    }
  }

  lemma TwiceCounts(b: seq<Placed>, i: nat, j: nat)
    requires i < j < |b| && b[i] == b[j]
    ensures multiset(b)[b[i]] >= 2
  {
    assert b == b[..i] + [b[i]] + b[i + 1..j] + [b[j]] + b[j + 1..];
  }

  lemma {:induction false} OnceCounts(read: Reader, a: seq<Placed>, r: Placed)
    requires DistinctTargets(read, a)
    ensures multiset(a)[r] <= 1
    decreases |a|
  {
    if a != [] {
      var rest := a[1..];
      assert a == [a[0]] + rest;
      SplitDistinct(read, a[0], rest, {});
      OnceCounts(read, rest, r);
      forall j | 0 <= j < |rest|
        ensures rest[j] != a[0]
      {
        assert TargetOf(read, a[0]) != TargetOf(read, a[j + 1]);
      }
    }
  }

  lemma DistinctTargetsPermute(read: Reader, a: seq<Placed>, b: seq<Placed>)
    requires DistinctTargets(read, a) && multiset(a) == multiset(b)
    ensures DistinctTargets(read, b)
  {
    SameElements(a, b);
    forall i, j | 0 <= i < j < |b|
      ensures TargetOf(read, b[i]) != TargetOf(read, b[j])
    {
      if b[i] == b[j] {
        TwiceCounts(b, i, j);
        OnceCounts(read, a, b[i]);
      } else {
        assert b[i] in a && b[j] in a;
        var k :| 0 <= k < |a| && a[k] == b[i];
        var l :| 0 <= l < |a| && a[l] == b[j];
        assert k < l || l < k;
      }
    }
  }

  // -- Reading printed sections ------------------------------------------------------------

  function LinesOf(rows: seq<Row>): seq<string> {
    if rows == [] then [] else [rows[0].line] + LinesOf(rows[1..])
  }

  /** The row's line is no heading, and if its target is wanted it reads as the row itself under `heading`. */
  predicate Reads(read: Reader, heading: string, section: string, row: Row, targets: set<string>) {
    && !read(row.line).Heading?
    && (Wanted(read, row.line, targets) ==> read(row.line).row == row && read(heading) == Heading(section))
  }

  /** The rows of a section whose targets are wanted. */
  function WantedRows(read: Reader, section: string, rows: seq<Row>, targets: set<string>): seq<Placed>
    decreases |rows|
  {
    if rows == [] then []
    else
      (if Wanted(read, rows[0].line, targets) then [Placed(section, rows[0])] else [])
      + WantedRows(read, section, rows[1..], targets)
  }

  lemma {:induction false} ScanRows(
    read: Reader, heading: string, section: string, rows: seq<Row>, current: string, targets: set<string>)
    requires forall r | r in rows :: Reads(read, heading, section, r, targets)
    requires read(heading) == Heading(section) ==> current == section
    ensures Scan(read, LinesOf(rows), current, targets) == WantedRows(read, section, rows, targets)
    ensures After(read, LinesOf(rows), current) == current
    decreases |rows|
  {
    if rows != [] {
      assert Reads(read, heading, section, rows[0], targets);
      assert LinesOf(rows)[0] == rows[0].line && LinesOf(rows)[1..] == LinesOf(rows[1..]);
      ScanRows(read, heading, section, rows[1..], current, targets);
    }
  }

  lemma ScanBlock(
    read: Reader, heading: string, section: string, rows: seq<Row>, current: string, targets: set<string>)
    requires read("").Other? && !read(heading).Listed?
    requires forall r | r in rows :: Reads(read, heading, section, r, targets)
    ensures Scan(read, [heading, ""] + LinesOf(rows) + [""], current, targets)
        == WantedRows(read, section, rows, targets)
  {
    var inside := SectionAfter(read, heading, current);
    ScanOne(read, heading, current, targets);
    ScanOne(read, "", inside, targets);
    ScanConcat(read, [heading], [""], current, targets);
    assert [heading] + [""] == [heading, ""];
    ScanRows(read, heading, section, rows, inside, targets);
    ScanOne(read, "", inside, targets);
    ScanConcat(read, [heading, ""], LinesOf(rows), current, targets);
    ScanConcat(read, [heading, ""] + LinesOf(rows), [""], current, targets);
  }

  function AllWanted(read: Reader, groups: Groups, keys: seq<string>, targets: set<string>): seq<Placed>
    requires forall k | k in keys :: k in groups
    decreases |keys|
  {
    if keys == [] then []
    else WantedRows(read, keys[0], Arranged(groups[keys[0]]), targets) + AllWanted(read, groups, keys[1..], targets)
  }

  // -- Counting the rows read back -----------------------------------------------------------

  lemma {:induction false} WantedRowCounts(read: Reader, section: string, rows: seq<Row>, targets: set<string>,
      placed: Placed)
    ensures multiset(WantedRows(read, section, rows, targets))[placed] ==
            if placed.section == section && Wanted(read, placed.row.line, targets) then multiset(rows)[placed.row]
                else 0
    decreases |rows|
  {
    if rows != [] {
      WantedRowCounts(read, section, rows[1..], targets, placed);
      assert rows == [rows[0]] + rows[1..];
    }
  }

  lemma {:induction false} AllWantedCounts(read: Reader, groups: Groups, keys: seq<string>, targets: set<string>,
      placed: Placed)
    requires forall k | k in keys :: k in groups
    requires forall i, j | 0 <= i < j < |keys| :: keys[i] != keys[j]
    ensures multiset(AllWanted(read, groups, keys, targets))[placed] ==
            if placed.section in keys && Wanted(read, placed.row.line, targets)
                then multiset(groups[placed.section])[placed.row] else 0
    decreases |keys|
  {
    if keys != [] {
      WantedRowCounts(read, keys[0], Arranged(groups[keys[0]]), targets, placed);
      AllWantedCounts(read, groups, keys[1..], targets, placed);
      assert placed.section in keys <==> placed.section == keys[0] || placed.section in keys[1..];
      assert keys[0] !in keys[1..];
    }
  }

  /** The rows with a wanted target, in the order they were placed. */
  function OnlyWanted(read: Reader, rows: seq<Placed>, targets: set<string>): seq<Placed>
    decreases |rows|
  {
    if rows == [] then []
    else (if Wanted(read, rows[0].row.line, targets) then [rows[0]] else []) + OnlyWanted(read, rows[1..], targets)
  }

  lemma {:induction false} OnlyWantedCounts(read: Reader, rows: seq<Placed>, targets: set<string>, placed: Placed)
    ensures multiset(OnlyWanted(read, rows, targets))[placed]
         == if Wanted(read, placed.row.line, targets) then multiset(rows)[placed] else 0
    decreases |rows|
  {
    if rows != [] {
      OnlyWantedCounts(read, rows[1..], targets, placed);
      assert rows == [rows[0]] + rows[1..];
    }
  }

  lemma BodyHoldsWanted(read: Reader, rows: seq<Placed>, targets: set<string>)
    ensures var groups := Grouped(rows);
            multiset(AllWanted(read, groups, SortedKeys(groups.Keys), targets))
              == multiset(OnlyWanted(read, rows, targets))
  {
    var groups := Grouped(rows);
    var keys := SortedKeys(groups.Keys);
    forall placed
      ensures multiset(AllWanted(read, groups, keys, targets))[placed]
          == multiset(OnlyWanted(read, rows, targets))[placed]
    {
      AllWantedCounts(read, groups, keys, targets, placed);
      OnlyWantedCounts(read, rows, targets, placed);
      GroupedCounts(rows, placed.section, placed.row);
      assert placed == Placed(placed.section, placed.row);
    }
  }

  lemma {:induction false} AllAreWanted(read: Reader, rows: seq<Placed>, targets: set<string>)
    requires forall r | r in rows :: Wanted(read, r.row.line, targets)
    ensures OnlyWanted(read, rows, targets) == rows
    decreases |rows|
  {
    if rows != [] {
      assert rows[0] in rows;
      AllAreWanted(read, rows[1..], targets);
    }
  }

  lemma {:induction false} NoneWanted(read: Reader, others: seq<Placed>, rows: seq<Placed>, targets: set<string>)
    requires forall r | r in others :: !Wanted(read, r.row.line, targets)
    requires forall r | r in rows :: Wanted(read, r.row.line, targets)
    ensures OnlyWanted(read, others + rows, targets) == rows
    decreases |others|
  {
    if others == [] {
      assert others + rows == rows;
      AllAreWanted(read, rows, targets);
    } else {
      NoneWanted(read, others[1..], rows, targets);
      assert others[0] in others;
      assert (others + rows)[1..] == others[1..] + rows;
    }
  }
}
