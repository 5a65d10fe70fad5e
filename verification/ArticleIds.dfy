/** Article identifiers: slugs made from titles, and identifiers that are safe as paths. */
module ArticleIds {
  import opened Basics

  /** `char::is_alphanumeric` on ASCII. */
  predicate IsAlphanumeric(c: char) {
    'a' <= c <= 'z' || 'A' <= c <= 'Z' || '0' <= c <= '9'
  }

  /** The words of `s`: its longest alphanumeric stretches joined by single dashes. */
  function Words(s: string): string {
    if s == [] then []
    else if !IsAlphanumeric(s[0]) then Words(s[1..])
    else
      var k := WordEnd(s);
      var rest := Words(s[k..]);
      if rest == [] then s[..k] else s[..k] + "-" + rest
  }

  function WordEnd(s: string): (k: nat)
    ensures k <= |s|
    ensures s != [] && IsAlphanumeric(s[0]) ==> k > 0
    ensures forall i | 0 <= i < k :: IsAlphanumeric(s[i])
    ensures k < |s| ==> !IsAlphanumeric(s[k])
  {
    if s == [] || !IsAlphanumeric(s[0]) then 0 else 1 + WordEnd(s[1..])
  }

  const DEVICE_NAMES: set<string> := {
    "con", "prn", "aux", "nul", "com1", "com2", "com3", "com4", "com5", "com6", "com7", "com8",
    "com9", "lpt1", "lpt2", "lpt3", "lpt4", "lpt5", "lpt6", "lpt7", "lpt8", "lpt9"
  }

  /** The text before the first dot. */
  function Stem(segment: string): string {
    if segment == [] || segment[0] == '.' then [] else [segment[0]] + Stem(segment[1..])
  }

  predicate IsDeviceName(segment: string) {
    Lower(Stem(segment)) in DEVICE_NAMES
  }

  function FromSlug(title: string): string {
    var slug := Words(Lower(title));
    if IsDeviceName(slug) then slug + "_" else slug
  }

  predicate IsSafeSegment(segment: string) {
    segment != [] && segment[|segment| - 1] != '.' && segment[|segment| - 1] != ' ' && !IsDeviceName(segment)
  }

  /** The path up to its first slash, and whether what follows is safe too. */
  function FirstSlash(path: string): (k: nat)
    ensures k <= |path|
    ensures k < |path| ==> path[k] == '/'
    ensures forall i | 0 <= i < k :: path[i] != '/'
  {
    if path == [] || path[0] == '/' then 0 else 1 + FirstSlash(path[1..])
  }

  predicate AllSegmentsSafe(path: string)
    decreases |path|
  {
    var k := FirstSlash(path);
    IsSafeSegment(path[..k]) && (k < |path| ==> AllSegmentsSafe(path[k + 1..]))
  }

  predicate IsSafePath(path: string) {
    && !(path != [] && path[0] == '/')
    && (forall i | 0 <= i < |path| :: path[i] != '\\' && path[i] != ':')
    && AllSegmentsSafe(path)
  }

  /** Lower-case letters and digits, with single dashes strictly between them. */
  predicate IsSlugText(s: string) {
    && (forall i | 0 <= i < |s| :: s[i] == '-' || IsAlphanumeric(s[i]))
    && (s != [] ==> s[0] != '-' && s[|s| - 1] != '-')
    && (forall i | 0 <= i < |s| - 1 :: !(s[i] == '-' && s[i + 1] == '-'))
  }

  lemma {:induction false} WordsAreSlugText(s: string)
    ensures IsSlugText(Words(s))
    decreases |s|
  {
    if s != [] {
      if !IsAlphanumeric(s[0]) {
        WordsAreSlugText(s[1..]);
      } else {
        WordsAreSlugText(s[WordEnd(s)..]);
      }
    }
  }

  /** The letters and digits of a text, in order. */
  function Letters(s: string): string {
    if s == [] then [] else (if IsAlphanumeric(s[0]) then [s[0]] else []) + Letters(s[1..])
  }

  lemma {:induction false} LettersConcat(a: string, b: string)
    ensures Letters(a + b) == Letters(a) + Letters(b)
  {
    if a == [] {
      assert a + b == b;
    } else {
      LettersConcat(a[1..], b);
      assert (a + b)[0] == a[0] && (a + b)[1..] == a[1..] + b;
      Regroup(if IsAlphanumeric(a[0]) then [a[0]] else [], Letters(a[1..]), Letters(b));
    }
  }

  lemma {:induction false} LettersHold(s: string, c: char)
    ensures c in Letters(s) <==> c in s && IsAlphanumeric(c)
  {
    if s != [] {
      LettersHold(s[1..], c);
    }
  }

  lemma {:induction false} AllLetters(s: string)
    requires forall i | 0 <= i < |s| :: IsAlphanumeric(s[i])
    ensures Letters(s) == s
  {
    if s != [] {
      AllLetters(s[1..]);
    }
  }

  lemma DashHoldsNone(s: string)
    ensures Letters("-" + s) == Letters(s)
  {
    assert ("-" + s)[1..] == s;
  }

  /** The words hold the letters and digits of the text, all of them, in order. */
  lemma {:induction false} WordsKeepLetters(s: string)
    ensures Letters(Words(s)) == Letters(s)
    decreases |s|
  {
    if s != [] {
      if !IsAlphanumeric(s[0]) {
        WordsKeepLetters(s[1..]);
      } else {
        var k := WordEnd(s);
        var rest := Words(s[k..]);
        WordsKeepLetters(s[k..]);
        AllLetters(s[..k]);
        LettersConcat(s[..k], s[k..]);
        LettersConcat(s[..k], "-" + rest);
        DashHoldsNone(rest);
        assert s == s[..k] + s[k..];
        assert s[..k] + ("-" + rest) == s[..k] + "-" + rest;
      }
    }
  }

  /** A single other character between two texts separates their words by one dash. */
  lemma {:induction false} WordsSeparate(a: string, c: char, b: string)
    requires !IsAlphanumeric(c) && Words(a) != [] && Words(b) != []
    ensures Words(a + [c] + b) == Words(a) + "-" + Words(b)
    decreases |a|
  {
    var s := a + [c] + b;
    assert a != [];
    if !IsAlphanumeric(a[0]) {
      assert s[1..] == a[1..] + [c] + b;
      WordsSeparate(a[1..], c, b);
    } else {
      var k := WordEnd(a);
      WordEndStays(a, [c] + b);
      assert s == a + ([c] + b);
      assert s[..k] == a[..k] && s[k..] == a[k..] + [c] + b;
      if Words(a[k..]) == [] {
        NoWords(a[k..], [c] + b);
        assert s[k..] == a[k..] + ([c] + b) && ([c] + b)[1..] == b;
      } else {
        WordsSeparate(a[k..], c, b);
        Regroup(s[..k] + "-", Words(a[k..]) + "-", Words(b));
        Regroup(s[..k] + "-", Words(a[k..]), "-");
      }
    }
  }

  lemma {:induction false} WordEndStays(a: string, b: string)
    requires b != [] && !IsAlphanumeric(b[0])
    ensures WordEnd(a + b) == WordEnd(a)
  {
    if a == [] {
      assert a + b == b;
    } else {
      assert (a + b)[1..] == a[1..] + b;
      WordEndStays(a[1..], b);
    }
  }

  lemma {:induction false} NoWords(a: string, b: string)
    requires Words(a) == []
    ensures Words(a + b) == Words(b)
  {
    if a == [] {
      assert a + b == b;
    } else {
      assert !IsAlphanumeric(a[0]);
      assert (a + b)[1..] == a[1..] + b;
      NoWords(a[1..], b);
    }
  }

  lemma {:induction false} NoDotStem(s: string)
    requires forall i | 0 <= i < |s| :: s[i] != '.'
    ensures Stem(s) == s
  {
    if s != [] {
      NoDotStem(s[1..]);
    }
  }

  lemma {:induction false} LowerAt(s: string, i: nat)
    requires i < |s|
    ensures Lower(s)[i] == if 'A' <= s[i] <= 'Z' then s[i] - 'A' + 'a' else s[i]
  {
    if i > 0 {
      LowerAt(s[1..], i - 1);
    }
  }

  lemma NoDeviceEndsInUnderscore(name: string)
    requires name in DEVICE_NAMES
    ensures name != [] && name[|name| - 1] != '_'
  {
  }

  lemma UnderscoreIsNoDevice(slug: string)
    requires forall i | 0 <= i < |slug| :: slug[i] != '.'
    ensures !IsDeviceName(slug + "_")
  {
    var name := slug + "_";
    NoDotStem(name);
    LowerAt(name, |slug|);
    if IsDeviceName(name) {
      NoDeviceEndsInUnderscore(Lower(name));
    }
  }

  lemma NoSlash(path: string)
    requires forall i | 0 <= i < |path| :: path[i] != '/'
    ensures AllSegmentsSafe(path) <==> IsSafeSegment(path)
  {
    assert path[..|path|] == path;
  }

  predicate IsSlugChar(c: char) {
    c == '-' || c == '_' || IsAlphanumeric(c)
  }

  lemma SlugChars(title: string)
    ensures var slug := FromSlug(title);
            && (forall i | 0 <= i < |slug| :: IsSlugChar(slug[i]) && !('A' <= slug[i] <= 'Z'))
            && (slug != [] ==> slug[|slug| - 1] != '-')
              && !IsDeviceName(slug)
  {
    var words := Words(Lower(title));
    WordsAreSlugText(Lower(title));
    WordsKeepLetters(Lower(title));
    forall i | 0 <= i < |words|
      ensures !('A' <= words[i] <= 'Z')
    {
      if IsAlphanumeric(words[i]) {
        LettersHold(words, words[i]);
        LettersHold(Lower(title), words[i]);
        var k :| 0 <= k < |title| && Lower(title)[k] == words[i];
        LowerAt(title, k);
      }
    }
    if IsDeviceName(words) {
      UnderscoreIsNoDevice(words);
    }
  }

  /** The underscore behind a device name never makes two titles collide: equal slugs have equal words. */
  lemma SlugsCollideOnlyByWords(a: string, b: string)
    ensures FromSlug(a) == FromSlug(b) <==> Words(Lower(a)) == Words(Lower(b))
  {
    var s, t := Words(Lower(a)), Words(Lower(b));
    WordsAreSlugText(Lower(a));
    WordsAreSlugText(Lower(b));
    if FromSlug(a) == FromSlug(b) {
      if FromSlug(a) != s {
        assert FromSlug(a)[|s|] == '_';
        assert s == FromSlug(a)[..|s|];
      }
      if FromSlug(b) != t {
        assert FromSlug(b)[|t|] == '_';
        assert t == FromSlug(b)[..|t|];
      }
    }
  }

  /** The names of devices: four bare ones, and `com` and `lpt` with a digit from 1 to 9. */
  lemma DeviceNamesAre(name: string)
    ensures name in DEVICE_NAMES <==>
            || name in {"con", "prn", "aux", "nul"}
            || (|name| == 4 && '1' <= name[3] <= '9'
                && ((name[0] == 'c' && name[1] == 'o' && name[2] == 'm')
                    || (name[0] == 'l' && name[1] == 'p' && name[2] == 't')))
  {
    if |name| == 4 && '1' <= name[3] <= '9' {
      assert name == [name[0], name[1], name[2], name[3]];
      assert name[3] in {'1', '2', '3', '4', '5', '6', '7', '8', '9'};
    }
  }

  /** `path[i..j]` is a segment: no slash inside, and one or the end of the path on either side. */
  ghost predicate IsSegment(path: string, i: nat, j: nat) {
    && i <= j <= |path| && (forall k | i <= k < j :: path[k] != '/')
    && (i == 0 || path[i - 1] == '/') && (j == |path| || path[j] == '/')
  }

  predicate SafeSpan(path: string, i: nat, j: nat)
    requires i <= j <= |path|
  {
    j > i && path[j - 1] != '.' && path[j - 1] != ' ' && !IsDeviceName(path[i..j])
  }

  /** A path is safe exactly when it does not start with a slash, holds no backslash and no colon, and no
      segment is empty, ends in a dot or a blank, or names a device. */
  lemma SafePathExactly(path: string)
    ensures IsSafePath(path) <==>
            && (path != [] ==> path[0] != '/')
            && (forall i | 0 <= i < |path| :: path[i] != '\\' && path[i] != ':')
            && AllSpansSafe(path)
  {
    SegmentsExactly(path);
  }

  lemma SegmentShift(path: string, k: nat, i: nat, j: nat)
    requires k < |path| && path[k] == '/' && (forall l | 0 <= l < k :: path[l] != '/')
    ensures IsSegment(path[k + 1..], i, j) <==> IsSegment(path, k + 1 + i, k + 1 + j)
    ensures i <= j <= |path| - k - 1 ==> path[k + 1..][i..j] == path[k + 1 + i..k + 1 + j]
    ensures IsSegment(path, i, j) && i <= k ==> i == 0 && j == k
  {
  }

  lemma WholeSegment(path: string, i: nat, j: nat)
    requires (forall l | 0 <= l < |path| :: path[l] != '/') && IsSegment(path, i, j)
    ensures i == 0 && j == |path|
  {
  }

  ghost predicate AllSpansSafe(path: string) {
    forall i: nat, j: nat | IsSegment(path, i, j) :: SafeSpan(path, i, j)
  }

  lemma SpansShift(path: string, k: nat)
    requires k < |path| && path[k] == '/' && (forall l | 0 <= l < k :: path[l] != '/')
    ensures AllSpansSafe(path) <==> SafeSpan(path, 0, k) && AllSpansSafe(path[k + 1..])
  {
    var rest := path[k + 1..];
    assert IsSegment(path, 0, k);
    if AllSpansSafe(path) {
      forall i: nat, j: nat | IsSegment(rest, i, j)
        ensures SafeSpan(rest, i, j)
      {
        SegmentShift(path, k, i, j);
        assert SafeSpan(path, k + 1 + i, k + 1 + j);
      }
    } else {
      var i: nat, j: nat :| IsSegment(path, i, j) && !SafeSpan(path, i, j);
      if i <= k {
        SegmentShift(path, k, i, j);
      } else {
        SegmentShift(path, k, i - k - 1, j - k - 1);
        assert IsSegment(rest, i - k - 1, j - k - 1) && !SafeSpan(rest, i - k - 1, j - k - 1);
      }
    }
  }

  lemma {:induction false} SegmentsExactly(path: string)
    ensures AllSegmentsSafe(path) <==> AllSpansSafe(path)
    decreases |path|
  {
    var k := FirstSlash(path);
    if k == |path| {
      assert IsSegment(path, 0, k);
      forall i: nat, j: nat | IsSegment(path, i, j)
        ensures i == 0 && j == |path|
      {
        WholeSegment(path, i, j);
      }
    } else {
      SegmentsExactly(path[k + 1..]);
      SpansShift(path, k);
    }
  }

  /** A slug is empty or a safe path, even where its words spell a device name. */
  lemma SlugIsSafe(title: string)
    ensures FromSlug(title) != [] ==> IsSafePath(FromSlug(title))
  {
    SlugChars(title);
    NoSlash(FromSlug(title));
  }
}
