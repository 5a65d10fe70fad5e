/**
 Processes that rewrite one log file under one lock: read, compute, replace, each
 a step of its own, with stops and new days in between. The rewriting function is a
 parameter, so what is proved holds for any text format.
 */
module LockedLog {
  import opened Basics
  import opened Sorting

  datatype Append = Append(date: string, line: string)

  /** From the text, the date and the line to the new text. */
  type Rewrite = (string, string, string) -> string

  function FoldWith(f: Rewrite, appends: seq<Append>): string
    decreases |appends|
  {
    if appends == [] then ""
    else
      var last := appends[|appends| - 1];
      f(FoldWith(f, appends[..|appends| - 1]), last.date, last.line)
  }

  ghost predicate NonDecreasing(appends: seq<Append>) {
    forall i, j | 0 <= i < j < |appends| :: StringLeq(appends[i].date, appends[j].date)
  }

  /** Where one appender stands between asking for the lock and giving it back. */
  datatype Appender =
    | Idle
    | Waiting(line: string)
    | Holding(line: string)
    | Loaded(line: string, text: string)
    | Stamped(line: string, date: string, updated: string)
    | Stored

  datatype Shared = Shared(
    file: string, today: string, holder: Option<nat>, appenders: map<nat, Appender>, written: seq<Append>)

  /** One atomic step of appender `p`, a stop of its process, or a new day. */
  datatype Turn =
    | Ask(p: nat, line: string)
    | Acquire(p: nat)
    | Load(p: nat)
    | Stamp(p: nat)
    | Store(p: nat)
    | Release(p: nat)
    | Stop(p: nat)
    | NextDay(date: string)

  function At(s: Shared, p: nat): Appender {
    if p in s.appenders then s.appenders[p] else Idle
  }

  function Moved(s: Shared, p: nat, a: Appender): Shared {
    s.(appenders := s.appenders[p := a])
  }

  /** A turn that is not open to its appender changes nothing. */
  function Take(f: Rewrite, s: Shared, turn: Turn): Shared {
    match turn
    case Ask(p, line) => if At(s, p) == Idle then Moved(s, p, Waiting(line)) else s
    case Acquire(p) =>
      var a := At(s, p);
      if a.Waiting? && s.holder == None then Moved(s, p, Holding(a.line)).(holder := Some(p)) else s
    case Load(p) =>
      var a := At(s, p);
      if a.Holding? then Moved(s, p, Loaded(a.line, s.file)) else s
    case Stamp(p) =>
      var a := At(s, p);
      if a.Loaded? then Moved(s, p, Stamped(a.line, s.today, f(a.text, s.today, a.line))) else s
    case Store(p) =>
      var a := At(s, p);
      if a.Stamped? then
        Moved(s, p, Stored).(file := a.updated, written := s.written + [Append(a.date, a.line)])
      else s
    case Release(p) => if At(s, p) == Stored then Moved(s, p, Idle).(holder := None) else s
    case Stop(p) => if s.holder == Some(p) then Moved(s, p, Idle).(holder := None) else Moved(s, p, Idle)
    case NextDay(date) => if StringLeq(s.today, date) then s.(today := date) else s
  }

  function TakeAll(f: Rewrite, s: Shared, turns: seq<Turn>): Shared
    decreases |turns|
  {
    if turns == [] then s else Take(f, TakeAll(f, s, turns[..|turns| - 1]), turns[|turns| - 1])
  }

  predicate Inside(a: Appender) {
    !a.Idle? && !a.Waiting?
  }

  ghost predicate NoneAfter(appends: seq<Append>, date: string) {
    forall a | a in appends :: StringLeq(a.date, date)
  }

  /** What the lock protects. */
  ghost predicate Guarded(f: Rewrite, s: Shared) {
    && s.file == FoldWith(f, s.written)
    && NonDecreasing(s.written)
    && NoneAfter(s.written, s.today)
    && (forall p: nat | Inside(At(s, p)) :: s.holder == Some(p))
    && (forall p: nat | At(s, p).Loaded? :: At(s, p).text == s.file)
    && (forall p: nat | At(s, p).Stamped? ::
          var a := At(s, p);
          a.updated == f(s.file, a.date, a.line) && StringLeq(a.date, s.today)
          && NoneAfter(s.written, a.date))
  }

  lemma OneMore(f: Rewrite, appends: seq<Append>, a: Append)
    requires NonDecreasing(appends) && NoneAfter(appends, a.date)
    ensures NonDecreasing(appends + [a])
    ensures FoldWith(f, appends + [a]) == f(FoldWith(f, appends), a.date, a.line)
  {
    var more := appends + [a];
    assert more[..|appends|] == appends;
    forall i, j | 0 <= i < j < |more|
      ensures StringLeq(more[i].date, more[j].date)
    {
      assert more[i] == appends[i] && more[i] in appends;
    }
  }

  lemma StoreIsGuarded(f: Rewrite, s: Shared, p: nat)
    requires Guarded(f, s) && At(s, p).Stamped?
    ensures Guarded(f, Take(f, s, Store(p)))
  {
    var a, t := At(s, p), Take(f, s, Store(p));
    OneMore(f, s.written, Append(a.date, a.line));
    assert t.file == FoldWith(f, t.written) && NonDecreasing(t.written);
    assert NoneAfter(t.written, t.today);
    forall q: nat | q != p
      ensures At(t, q) == At(s, q) && !Inside(At(t, q))
    {
    }
    assert At(t, p) == Stored;
  }

  lemma NoneAfterLater(appends: seq<Append>, a: string, b: string)
    requires NoneAfter(appends, a) && StringLeq(a, b)
    ensures NoneAfter(appends, b)
  {
    forall w | w in appends
      ensures StringLeq(w.date, b)
    {
      StringLeqTransitive(w.date, a, b);
    }
  }

  lemma DayIsGuarded(f: Rewrite, s: Shared, date: string)
    requires Guarded(f, s)
    ensures Guarded(f, Take(f, s, NextDay(date)))
  {
    var t := Take(f, s, NextDay(date));
    if t != s {
      NoneAfterLater(s.written, s.today, date);
      forall p: nat | At(s, p).Stamped?
        ensures StringLeq(At(s, p).date, date)
      {
        StringLeqTransitive(At(s, p).date, s.today, date);
      }
      assert forall p: nat :: At(t, p) == At(s, p);
    }
  }

  /** An appender may change its own state as long as what it then claims is true. */
  lemma MoveIsGuarded(f: Rewrite, s: Shared, t: Shared, p: nat)
    requires Guarded(f, s)
    requires t.(appenders := s.appenders, holder := s.holder) == s
    requires forall q: nat | q != p :: At(t, q) == At(s, q)
    requires Inside(At(t, p)) ==> t.holder == Some(p)
    requires t.holder == s.holder || s.holder == None || s.holder == Some(p)
    requires At(t, p).Loaded? ==> At(t, p).text == s.file
    requires At(t, p).Stamped? ==> At(t, p).date == s.today && At(t, p).updated == f(s.file, s.today, At(t, p).line)
    ensures Guarded(f, t)
  {
    StringLeqTotal(s.today, s.today);
  }

  lemma EnteringIsGuarded(f: Rewrite, s: Shared, p: nat, line: string)
    requires Guarded(f, s)
    ensures Guarded(f, Take(f, s, Ask(p, line))) && Guarded(f, Take(f, s, Acquire(p)))
  {
    if At(s, p) == Idle {
      MoveIsGuarded(f, s, Take(f, s, Ask(p, line)), p);
    }
    if Take(f, s, Acquire(p)) != s {
      MoveIsGuarded(f, s, Take(f, s, Acquire(p)), p);
    }
  }

  lemma WorkingIsGuarded(f: Rewrite, s: Shared, p: nat)
    requires Guarded(f, s)
    ensures Guarded(f, Take(f, s, Load(p))) && Guarded(f, Take(f, s, Stamp(p)))
  {
    if At(s, p).Holding? {
      MoveIsGuarded(f, s, Take(f, s, Load(p)), p);
    }
    if At(s, p).Loaded? {
      MoveIsGuarded(f, s, Take(f, s, Stamp(p)), p);
    }
  }

  lemma ReleaseIsGuarded(f: Rewrite, s: Shared, p: nat)
    requires Guarded(f, s)
    ensures Guarded(f, Take(f, s, Release(p)))
  {
    if At(s, p) == Stored {
      MoveIsGuarded(f, s, Take(f, s, Release(p)), p);
    }
  }

  lemma StopIsGuarded(f: Rewrite, s: Shared, p: nat)
    requires Guarded(f, s)
    ensures Guarded(f, Take(f, s, Stop(p)))
  {
    MoveIsGuarded(f, s, Take(f, s, Stop(p)), p);
  }

  lemma TurnIsGuarded(f: Rewrite, s: Shared, turn: Turn)
    requires Guarded(f, s)
    ensures Guarded(f, Take(f, s, turn))
  {
    match turn
    case Ask(p, line) => EnteringIsGuarded(f, s, p, line);
    case Acquire(p) => EnteringIsGuarded(f, s, p, "");
    case Load(p) => WorkingIsGuarded(f, s, p);
    case Stamp(p) => WorkingIsGuarded(f, s, p);
    case Store(p) =>
      if At(s, p).Stamped? {
        StoreIsGuarded(f, s, p);
      }
    case Release(p) => ReleaseIsGuarded(f, s, p);
    case Stop(p) => StopIsGuarded(f, s, p);
    case NextDay(date) => DayIsGuarded(f, s, date);
  }

  /**
   Whatever the interleaving of appenders, stops and day changes, the file is the
   fold of the stored appends in the order they were stored, and its dates never go
   back: no appender overwrites another's line.
   */
  lemma {:induction false} LockedAppendsFold(f: Rewrite, s: Shared, turns: seq<Turn>)
    requires Guarded(f, s)
    decreases |turns|
    ensures var t := TakeAll(f, s, turns);
        Guarded(f, t) && s.written <= t.written && t.file == FoldWith(f, t.written) && NonDecreasing(t.written)
  {
    if turns != [] {
      var before := TakeAll(f, s, turns[..|turns| - 1]);
      LockedAppendsFold(f, s, turns[..|turns| - 1]);
      TurnIsGuarded(f, before, turns[|turns| - 1]);
      WrittenGrows(f, before, turns[|turns| - 1]);
    }
  }

  lemma WrittenGrows(f: Rewrite, s: Shared, turn: Turn)
    ensures s.written <= Take(f, s, turn).written
  {
  }
}
