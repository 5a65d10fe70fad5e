/**
 Compact JSON is unambiguous: two values with the same compact text are the same
 value. A hash of the compact bytes therefore identifies the value itself.
 */
module JsonIdentity {
  import opened Json

  /** `x` cannot continue a number. */
  predicate Stops(x: string) {
    x == [] || !IsNumberChar(x[0])
  }

  lemma {:induction false} NumberPrefix(a: string, b: string, x: string, y: string)
    requires forall i | 0 <= i < |a| :: IsNumberChar(a[i])
    requires forall i | 0 <= i < |b| :: IsNumberChar(b[i])
    requires Stops(x) && Stops(y) && a + x == b + y
    ensures a == b && x == y
  {
    assert a != [] ==> (a + x)[0] == a[0];
    assert b != [] ==> (b + y)[0] == b[0];
    assert a == [] ==> a + x == x;
    assert b == [] ==> b + y == y;
    if a != [] {
      assert (a + x)[1..] == a[1..] + x && (b + y)[1..] == b[1..] + y;
      NumberPrefix(a[1..], b[1..], x, y);
      assert a == [a[0]] + a[1..] && b == [b[0]] + b[1..];
    }
  }

  lemma Assoc(a: string, b: string, c: string)
    ensures (a + b) + c == a + (b + c)
  {
  }

  lemma DropCommon(head: string, x: string, y: string)
    requires head + x == head + y
    ensures x == y
  {
    assert (head + x)[|head|..] == x;
    assert (head + y)[|head|..] == y;
  }

  /** The escapes form a prefix code. */
  lemma EscapeCharPrefix(c: char, d: char, x: string, y: string)
    requires EscapeChar(c) + x == EscapeChar(d) + y
    ensures c == d && x == y
  {
    var p, q := EscapeChar(c), EscapeChar(d);
    assert (p + x)[0] == p[0] && (q + y)[0] == q[0];
    if p[0] == '\\' {
      assert (p + x)[1] == p[1] && (q + y)[1] == q[1];
      if p[1] == 'u' {
        assert (p + x)[4] == p[4] && (q + y)[4] == q[4];
        assert (p + x)[5] == p[5] && (q + y)[5] == q[5];
        HexDigits(c as int / 16, d as int / 16);
        HexDigits(c as int % 16, d as int % 16);
      }
    }
    assert c == d;
    DropCommon(p, x, y);
  }

  lemma HexDigits(a: nat, b: nat)
    requires a < 16 && b < 16 && HEX[a] == HEX[b]
    ensures a == b
  {
  }

  lemma EscapeUnfold(s: string, tail: string)
    ensures Escape(s) + tail == if s == [] then tail else EscapeChar(s[0]) + (Escape(s[1..]) + tail)
  {
    if s != [] {
      Assoc(EscapeChar(s[0]), Escape(s[1..]), tail);
    }
  }

  lemma EscapeCharOpens(c: char)
    ensures EscapeChar(c) != [] && EscapeChar(c)[0] != '"'
  {
  }

  /** The closing quote cannot be mistaken for part of the string. */
  lemma {:induction false} QuotePrefix(s: string, t: string, x: string, y: string)
    requires x != [] && y != [] && x[0] == y[0] == '"'
    requires Escape(s) + x == Escape(t) + y
    ensures s == t && x == y
  {
    var l, r := Escape(s) + x, Escape(t) + y;
    EscapeUnfold(s, x);
    EscapeUnfold(t, y);
    if s != [] {
      EscapeCharOpens(s[0]);
      assert l[0] == EscapeChar(s[0])[0];
    }
    if t != [] {
      EscapeCharOpens(t[0]);
      assert r[0] == EscapeChar(t[0])[0];
    }
    if s != [] {
      EscapeCharPrefix(s[0], t[0], Escape(s[1..]) + x, Escape(t[1..]) + y);
      QuotePrefix(s[1..], t[1..], x, y);
      assert s == [s[0]] + s[1..] && t == [t[0]] + t[1..];
    }
  }

  /** The first character tells the kind of value. */
  lemma FirstChar(v: Value)
    requires WellSpelled(v)
    ensures |Compact(v)| > 0
    ensures var c := Compact(v)[0];
            match v
            case Null => c == 'n'
            case Bool(b) => c == if b then 't' else 'f'
            case Number(_) => IsNumberChar(c)
            case Str(_) => c == '"'
            case Arr(_) => c == '['
            case Obj(_) => c == '{'
  {
  }

  /** A quoted string, an array and an object open with their bracket and close with it. */
  lemma Unfold(v: Value, x: string)
    requires v.Str? || v.Arr? || v.Obj?
    ensures Compact(v) + x == match v
                              case Str(text) => "\"" + (Escape(text) + ("\"" + x))
                              case Arr(items) => "[" + (CompactItems(items) + ("]" + x))
                              case Obj(fields) => "{" + (CompactFields(fields) + ("}" + x))
  {
    match v
    case Str(text) => assert Compact(v) == ['"'] + Escape(text) + ['"'];
    case Arr(items) => assert Compact(v) == "[" + CompactItems(items) + "]";
    case Obj(fields) => assert Compact(v) == "{" + CompactFields(fields) + "}";
  }

  lemma {:induction false} CompactPrefix(a: Value, b: Value, x: string, y: string)
    requires WellSpelled(a) && WellSpelled(b) && Stops(x) && Stops(y)
    requires Compact(a) + x == Compact(b) + y
    ensures a == b && x == y
    decreases a, 1
  {
    SameKind(a, b, x, y);
    match a
    case Number(m) =>
      NumberPrefix(m, b.literal, x, y);
    case Str(s) =>
      Unfold(a, x);
      Unfold(b, y);
      DropCommon("\"", Escape(s) + ("\"" + x), Escape(b.text) + ("\"" + y));
      QuotePrefix(s, b.text, "\"" + x, "\"" + y);
      DropCommon("\"", x, y);
    case Arr(items) =>
      Unfold(a, x);
      Unfold(b, y);
      DropCommon("[", CompactItems(items) + ("]" + x), CompactItems(b.items) + ("]" + y));
      ItemsPrefix(items, b.items, x, y);
    case Obj(fields) =>
      Unfold(a, x);
      Unfold(b, y);
      DropCommon("{", CompactFields(fields) + ("}" + x), CompactFields(b.fields) + ("}" + y));
      FieldsPrefix(fields, b.fields, x, y);
    case _ =>
      DropCommon(Compact(a), x, y);
  }

  lemma SameKind(a: Value, b: Value, x: string, y: string)
    requires WellSpelled(a) && WellSpelled(b)
    requires Compact(a) + x == Compact(b) + y
    ensures match a
            case Null => b.Null?
            case Bool(p) => b == a
            case Number(_) => b.Number?
            case Str(_) => b.Str?
            case Arr(_) => b.Arr?
            case Obj(_) => b.Obj?
  {
    FirstChar(a);
    FirstChar(b);
    assert (Compact(a) + x)[0] == Compact(a)[0] && (Compact(b) + y)[0] == Compact(b)[0];
  }

  /** What follows the first item of a list that `close` ends. */
  function ItemsTail(items: seq<Value>, close: string): string
    requires items != []
  {
    if |items| == 1 then close else "," + (CompactItems(items[1..]) + close)
  }

  lemma ItemsUnfold(items: seq<Value>, close: string)
    ensures CompactItems(items) + close == if items == [] then close else Compact(items[0]) + ItemsTail(items, close)
  {
    if |items| == 1 {
      assert CompactItems(items) == Compact(items[0]);
    } else if |items| > 1 {
      var rest := CompactItems(items[1..]);
      assert CompactItems(items) == Compact(items[0]) + "," + rest;
      Assoc(Compact(items[0]) + ",", rest, close);
      Assoc(Compact(items[0]), ",", rest + close);
    }
  }

  lemma {:induction false} ItemsPrefix(a: seq<Value>, b: seq<Value>, x: string, y: string)
    requires forall i | 0 <= i < |a| :: WellSpelled(a[i])
    requires forall i | 0 <= i < |b| :: WellSpelled(b[i])
    requires CompactItems(a) + ("]" + x) == CompactItems(b) + ("]" + y)
    ensures a == b && x == y
    decreases a, 0
  {
    var l := CompactItems(a) + ("]" + x);
    ItemsUnfold(a, "]" + x);
    ItemsUnfold(b, "]" + y);
    if a != [] {
      FirstChar(a[0]);
      assert l[0] == Compact(a[0])[0] != ']';
    }
    if b != [] {
      FirstChar(b[0]);
      assert l[0] == Compact(b[0])[0] != ']';
    }
    if a == [] {
      DropCommon("]", x, y);
    } else {
      var u, v := ItemsTail(a, "]" + x), ItemsTail(b, "]" + y);
      CompactPrefix(a[0], b[0], u, v);
      assert |a| == 1 <==> u[0] == ']';
      assert |b| == 1 <==> v[0] == ']';
      if |a| == 1 {
        DropCommon("]", x, y);
      } else {
        DropCommon(",", CompactItems(a[1..]) + ("]" + x), CompactItems(b[1..]) + ("]" + y));
        ItemsPrefix(a[1..], b[1..], x, y);
      }
      assert a == [a[0]] + a[1..] && b == [b[0]] + b[1..];
    }
  }

  function FieldsTail(fields: seq<Field>, close: string): string
    requires fields != []
  {
    if |fields| == 1 then close else "," + (CompactFields(fields[1..]) + close)
  }

  /** A list of fields reads: quote, name, quote, colon, value, tail. */
  lemma FieldsUnfold(fields: seq<Field>, close: string)
    ensures CompactFields(fields) + close
         == if fields == [] then close
            else "\"" + (Escape(fields[0].name) + ("\":" + (Compact(fields[0].value) + FieldsTail(fields, close))))
  {
    if fields != [] {
      var name, value := Quote(fields[0].name), Compact(fields[0].value);
      var tail := FieldsTail(fields, close);
      if |fields| > 1 {
        Assoc(name + ":" + value + ",", CompactFields(fields[1..]), close);
        Assoc(name + ":" + value, ",", CompactFields(fields[1..]) + close);
      }
      assert CompactFields(fields) + close == name + ":" + value + tail;
      Assoc(name + ":", value, tail);
      QuotedName(Escape(fields[0].name), value + tail);
    }
  }

  lemma QuotedName(body: string, rest: string)
    ensures ['"'] + body + ['"'] + ":" + rest == "\"" + (body + ("\":" + rest))
  {
  }

  /** Equal tails end together, or go on with equal lists. */
  lemma SameTail(a: seq<Field>, b: seq<Field>, x: string, y: string)
    requires a != [] && b != [] && FieldsTail(a, "}" + x) == FieldsTail(b, "}" + y)
    ensures |a| == 1 <==> |b| == 1
    ensures |a| == 1 ==> x == y
    ensures |a| > 1 ==> CompactFields(a[1..]) + ("}" + x) == CompactFields(b[1..]) + ("}" + y)
  {
    var u, v := FieldsTail(a, "}" + x), FieldsTail(b, "}" + y);
    assert |a| == 1 <==> u[0] == '}';
    assert |b| == 1 <==> v[0] == '}';
    if |a| == 1 {
      DropCommon("}", x, y);
    } else {
      DropCommon(",", CompactFields(a[1..]) + ("}" + x), CompactFields(b[1..]) + ("}" + y));
    }
  }

  lemma {:induction false} FieldsPrefix(a: seq<Field>, b: seq<Field>, x: string, y: string)
    requires forall i | 0 <= i < |a| :: WellSpelled(a[i].value)
    requires forall i | 0 <= i < |b| :: WellSpelled(b[i].value)
    requires CompactFields(a) + ("}" + x) == CompactFields(b) + ("}" + y)
    ensures a == b && x == y
    decreases a, 0
  {
    FieldsUnfold(a, "}" + x);
    FieldsUnfold(b, "}" + y);
    var l := CompactFields(a) + ("}" + x);
    assert a != [] ==> l[0] == '"';
    assert b != [] ==> l[0] == '"';
    if a == [] {
      DropCommon("}", x, y);
    } else {
      var u, v := FieldsTail(a, "}" + x), FieldsTail(b, "}" + y);
      FieldPrefix(a[0], b[0], u, v);
      SameTail(a, b, x, y);
      if |a| > 1 {
        FieldsPrefix(a[1..], b[1..], x, y);
      }
      assert a == [a[0]] + a[1..] && b == [b[0]] + b[1..];
    }
  }

  lemma {:induction false} FieldPrefix(a: Field, b: Field, u: string, v: string)
    requires WellSpelled(a.value) && WellSpelled(b.value) && Stops(u) && Stops(v)
    requires "\"" + (Escape(a.name) + ("\":" + (Compact(a.value) + u)))
        == "\"" + (Escape(b.name) + ("\":" + (Compact(b.value) + v)))
    ensures a == b && u == v
    decreases a, 2
  {
    var p, q := "\":" + (Compact(a.value) + u), "\":" + (Compact(b.value) + v);
    DropCommon("\"", Escape(a.name) + p, Escape(b.name) + q);
    QuotePrefix(a.name, b.name, p, q);
    DropCommon("\":", Compact(a.value) + u, Compact(b.value) + v);
    CompactPrefix(a.value, b.value, u, v);
  }

  /** Equal compact texts come from equal values. */
  lemma CompactInjective(a: Value, b: Value)
    requires WellSpelled(a) && WellSpelled(b) && Compact(a) == Compact(b)
    ensures a == b
  {
    assert Compact(a) + [] == Compact(b) + [];
    CompactPrefix(a, b, [], []);
  }
}
