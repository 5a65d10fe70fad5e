/** String literals read back (section 7 of RFC 8259): the printed escapes mean what they stand for. */
module JsonEscapes {
  import opened Basics
  import opened Json

  function HexValue(c: char): Option<nat> {
    if '0' <= c <= '9' then Some(c as int - '0' as int)
    else if 'a' <= c <= 'f' then Some(c as int - 'a' as int + 10)
    else if 'A' <= c <= 'F' then Some(c as int - 'A' as int + 10)
    else None
  }

  /** What follows a backslash: the character it stands for and how many characters spell it. */
  function ReadEscape(s: string): Option<(char, nat)> {
    if s == [] then None
    else match s[0]
      case '"' => Some(('"', 1))
      case '\\' => Some(('\\', 1))
      case '/' => Some(('/', 1))
      case 'b' => Some((8 as char, 1))
      case 'f' => Some((12 as char, 1))
      case 'n' => Some(('\n', 1))
      case 'r' => Some(('\r', 1))
      case 't' => Some(('\t', 1))
      case 'u' => if |s| >= 5 && s[1..3] == "00" then ReadHexPair(s[3], s[4]) else None
      case _ => None
  }

  function ReadHexPair(high: char, low: char): Option<(char, nat)> {
    match (HexValue(high), HexValue(low))
    case (Some(h), Some(l)) => if h < 8 && l < 16 then Some(((16 * h + l) as char, 5)) else None
    case _ => None
  }

  /** The characters between the quotes of a literal. */
  function Unescape(s: string): Option<string> {
    if s == [] then Some([])
    else if s[0] == '\\' then
      match ReadEscape(s[1..])
      case None => None
      case Some((c, n)) =>
        if |s| < n + 1 then None
        else match Unescape(s[n + 1..])
          case Some(rest) => Some([c] + rest)
          case None => None
    else match Unescape(s[1..])
      case Some(rest) => Some([s[0]] + rest)
      case None => None
  }

  /** Seven characters have a short escape, the other control characters the four-digit one in lower case. */
  lemma EscapeShape(c: char)
    ensures |EscapeChar(c)| ==
            if c in {'"', '\\', '\n', '\r', '\t', 8 as char, 12 as char} then 2 else if c as int < 32 then 6 else 1
    ensures c as int < 32 ==> forall x | x in EscapeChar(c) :: !('A' <= x <= 'Z')
  {
  }

  lemma EscapeReads(c: char, rest: string)
    requires |EscapeChar(c)| > 1
    ensures EscapeChar(c)[0] == '\\'
    ensures ReadEscape(EscapeChar(c)[1..] + rest) == Some((c, |EscapeChar(c)| - 1))
  {
    var s := EscapeChar(c)[1..] + rest;
    if |EscapeChar(c)| == 6 {
      assert s[0] == 'u' && s[1..3] == "00";
      HexReads(c as int / 16);
      HexReads(c as int % 16);
    }
  }

  lemma UnescapeOne(c: char, rest: string, tail: string)
    requires Unescape(rest) == Some(tail)
    ensures Unescape(EscapeChar(c) + rest) == Some([c] + tail)
  {
    var text, n := EscapeChar(c) + rest, |EscapeChar(c)|;
    assert text[n..] == rest;
    if n > 1 {
      EscapeReads(c, rest);
      assert text[1..] == EscapeChar(c)[1..] + rest && text[0] == '\\';
    } else {
      PlainEscape(c);
      assert text[0] == c && text[1..] == rest;
    }
  }

  lemma PlainEscape(c: char)
    ensures EscapeChar(c) == [c] <==> |EscapeChar(c)| == 1
    ensures |EscapeChar(c)| == 1 ==> c != '\\'
    ensures |EscapeChar(c)| >= 1
  {
  }

  lemma HexReads(n: nat)
    requires n < 16
    ensures HexValue(HEX[n]) == Some(n)
  {
  }

  /** A printed string literal reads back as the string it was printed for. */
  lemma {:induction false} EscapeRoundTrip(s: string)
    ensures Unescape(Escape(s)) == Some(s)
  {
    if s != [] {
      EscapeRoundTrip(s[1..]);
      UnescapeOne(s[0], Escape(s[1..]), s[1..]);
      assert s == [s[0]] + s[1..];
    }
  }
}
