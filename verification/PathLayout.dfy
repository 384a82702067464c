/** The on-disk layout of a music library: slugs, and track numbers and titles in file names. */
module PathLayout {
  import opened Wrappers
  import opened Text

  function Lower(c: char): char {
    if 'A' <= c <= 'Z' then (c as int + 32) as char else c
  }

  predicate IsSlugChar(c: char) {
    'a' <= c <= 'z' || IsDigit(c)
  }

  // ---------- slugs ----------

  /** Letters and digits in lower case, with one dash for every run of other characters between them. */
  function Slug(text: string): string
    decreases text, 0
  {
    if text == "" then ""
    else
      var before, c := text[..|text| - 1], text[|text| - 1];
      if !IsAlnum(c) then Slug(before)
      else Slug(before) + (if NeedsDash(before) then "-" else "") + [Lower(c)]
  }

  /** Whether a letter behind `text` starts a new word that is not the first. */
  predicate NeedsDash(text: string)
    decreases text, 1
  {
    text != "" && !IsAlnum(text[|text| - 1]) && Slug(text) != ""
  }

  method SlugOf(text: string) returns (out: string)
    ensures out == Slug(text)
  {
    out := "";
    var needDash := false;
    for i := 0 to |text|
      invariant out == Slug(text[..i]) && needDash == NeedsDash(text[..i])
    {
      assert text[..i + 1][..i] == text[..i];
      if IsAlnum(text[i]) {
        if needDash && out != "" {
          out := out + "-";
        }
        out := out + [Lower(text[i])];
        needDash := false;
      } else {
        needDash := out != "";
      }
    }
    assert text[..|text|] == text;
  }

  /** `[a-z0-9]+(-[a-z0-9]+)*`, or nothing. */
  predicate IsSlug(s: string) {
    && (forall i :: 0 <= i < |s| ==> IsSlugChar(s[i]) || s[i] == '-')
    && (forall i :: 0 <= i < |s| && s[i] == '-' ==> 0 < i < |s| - 1 && s[i - 1] != '-' && s[i + 1] != '-')
  }

  lemma {:induction false} SlugShape(text: string)
    ensures IsSlug(Slug(text))
    ensures Slug(text) == "" <==> forall c :: c in text ==> !IsAlnum(c)
  {
    if text != "" {
      var before, c := text[..|text| - 1], text[|text| - 1];
      SlugShape(before);
      assert text == before + [c];
    }
  }

  lemma SlugSnoc(before: string, c: char)
    ensures Slug(before + [c]) ==
            if !IsAlnum(c) then Slug(before) else Slug(before) + (if NeedsDash(before) then "-" else "") + [Lower(c)]
  {
    assert (before + [c])[..|before|] == before;
  }

  predicate InWords(s: string) {
    && (forall i :: 0 <= i < |s| ==> IsSlugChar(s[i]) || s[i] == '-')
    && (forall i :: 0 <= i < |s| && s[i] == '-' ==> 0 < i && s[i - 1] != '-')
  }

  lemma {:induction false} SlugOfSlug(s: string)
    requires InWords(s)
    ensures Slug(s) == if s != "" && s[|s| - 1] == '-' then s[..|s| - 1] else s
  {
    hide Slug, NeedsDash;
    if s == "" {
      SlugOfNothing();
    } else {
      var before, c := s[..|s| - 1], s[|s| - 1];
      assert s == before + [c];
      SlugOfSlug(before);
      SlugSnoc(before, c);
      if c != '-' {
        WordGoesOn(before);
      }
    }
  }

  lemma SlugOfNothing()
    ensures Slug("") == ""
  {}

  lemma WordGoesOn(before: string)
    requires InWords(before)
    requires Slug(before) == if before != "" && before[|before| - 1] == '-' then before[..|before| - 1] else before
    ensures Slug(before) + (if NeedsDash(before) then "-" else "") == before
  {
    hide Slug;
    if before != "" && before[|before| - 1] == '-' {
      assert before == before[..|before| - 1] + "-";
    } else {
      assert before + "" == before;
    }
  }

  /** Slugs are exactly the texts that slugging leaves alone; so it is idempotent, and onto the slugs. */
  lemma SlugFixedPoint(s: string)
    ensures Slug(s) == s <==> IsSlug(s)
    ensures Slug(Slug(s)) == Slug(s)
  {
    hide Slug, InWords, IsSlug;
    SlugShape(s);
    SlugIsWords(Slug(s));
    SlugOfSlug(Slug(s));
    if IsSlug(s) {
      SlugIsWords(s);
      SlugOfSlug(s);
    }
  }

  lemma SlugIsWords(s: string)
    requires IsSlug(s)
    ensures InWords(s) && (s == "" || s[|s| - 1] != '-')
  {}

  /** Nothing but case, and what stands between words, is lost. */
  function Letters(text: string): string {
    if text == "" then ""
    else Letters(text[..|text| - 1]) + if IsAlnum(text[|text| - 1]) then [Lower(text[|text| - 1])] else ""
  }

  lemma {:induction false} LettersOfPlus(a: string, c: char)
    ensures Letters(a + [c]) == Letters(a) + if IsAlnum(c) then [Lower(c)] else ""
  {
    assert (a + [c])[..|a|] == a;
  }

  lemma {:induction false} SlugKeepsLetters(text: string)
    ensures Letters(Slug(text)) == Letters(text)
  {
    if text != "" {
      var before, c := text[..|text| - 1], text[|text| - 1];
      SlugKeepsLetters(before);
      if IsAlnum(c) {
        var dashed := Slug(before) + if NeedsDash(before) then "-" else "";
        LettersOfPlus(Slug(before), '-');
        assert Slug(before) + "" == Slug(before) && Slug(before) + "-" == Slug(before) + ['-'];
        LettersOfPlus(dashed, Lower(c));
      }
    }
  }

  /** Words that something stands between are joined by one dash, and letters side by side by none. */
  lemma {:induction false} SlugJoins(a: string, gap: string, b: string)
    requires a != "" && IsAlnum(a[|a| - 1]) && b != "" && IsAlnum(b[0])
    requires forall i :: 0 <= i < |gap| ==> !IsAlnum(gap[i])
    ensures Slug(a + gap + b) == Slug(a) + (if gap == "" then "" else "-") + Slug(b)
    decreases |b|
  {
    hide NeedsDash, Slug;
    var n := |b| - 1;
    var t := a + gap + b[..n];
    assert a + gap + b == t + [b[n]] && b == b[..n] + [b[n]];
    SlugSnoc(t, b[n]);
    SlugSnoc(b[..n], b[n]);
    if n == 0 {
      assert b[..0] == "" && t == a + gap;
      SlugOfGap(a, gap);
      SlugOfNothing();
      NoDashInFront();
      assert Slug(a) + "" + [Lower(b[0])] == Slug(a) + "" + ("" + [Lower(b[0])]);
    } else {
      assert b[..n][0] == b[0];
      SlugJoins(a, gap, b[..n]);
      DashBehind(a + gap, b[..n]);
    }
  }

  lemma NoDashInFront()
    ensures !NeedsDash("")
  {}

  /** What stands behind the last letter adds nothing yet, but calls for a dash. */
  lemma {:induction false} SlugOfGap(a: string, gap: string)
    requires a != "" && IsAlnum(a[|a| - 1]) && forall i :: 0 <= i < |gap| ==> !IsAlnum(gap[i])
    ensures Slug(a + gap) == Slug(a) && Slug(a) != "" && (NeedsDash(a + gap) <==> gap != "")
    decreases |gap|
  {
    if gap == "" {
      assert a + gap == a;
    } else {
      var m := |gap| - 1;
      assert a + gap == (a + gap[..m]) + [gap[m]];
      SlugOfGap(a, gap[..m]);
      SlugSnoc(a + gap[..m], gap[m]);
    }
  }

  /** Whether a dash is called for depends on the last word alone. */
  lemma DashBehind(front: string, b: string)
    requires b != "" && IsAlnum(b[0])
    ensures NeedsDash(front + b) <==> NeedsDash(b)
  {
    assert (front + b)[|front + b| - 1] == b[|b| - 1];
    HasLetter(front + b, |front|);
    HasLetter(b, 0);
  }

  lemma HasLetter(text: string, i: nat)
    requires i < |text| && IsAlnum(text[i])
    ensures Slug(text) != ""
  {
    hide Slug;
    SlugShape(text);
    assert text[i] in text;
  }

  // ---------- file names ----------

  datatype TrackPath = TrackPath(artist: string, album: string, title: string, number: Option<nat>, extension: string)

  function Parts(segments: seq<string>): seq<string> {
    if segments == [] then []
    else
      var last := segments[|segments| - 1];
      Parts(segments[..|segments| - 1]) + if last == "" || last == "." then [] else [last]
  }

  /** Where the last `.` stands. */
  function LastDot(s: string): (r: Option<nat>)
    ensures r.Some? ==> r.value < |s| && s[r.value] == '.' && forall k :: r.value < k < |s| ==> s[k] != '.'
    ensures r.None? ==> '.' !in s
  {
    if s == "" then None else if s[|s| - 1] == '.' then Some(|s| - 1) else LastDot(s[..|s| - 1])
  }

  function LowerAll(s: string): string {
    seq(|s|, i requires 0 <= i < |s| => Lower(s[i]))
  }

  predicate IsSeparator(c: char) {
    c == '-' || c == '.' || c == ' ' || c == '_'
  }

  /** Length of the longest prefix whose characters are all of a kind. */
  function Span(s: string, kind: char -> bool): (n: nat)
    ensures n <= |s| && forall k :: 0 <= k < n ==> kind(s[k])
    ensures n < |s| ==> !kind(s[n])
  {
    if s == "" || !kind(s[0]) then 0 else 1 + Span(s[1..], kind)
  }

  const Digits: char -> bool := (c: char) => IsDigit(c)
  const Separators: char -> bool := (c: char) => IsSeparator(c)

  const MAX_UINT16 := 0xffff

  /** The title and number in a stem: digits, separators, title; or else all of it is the title. */
  function TitleOf(stem: string): (string, Option<nat>) {
    var digits := Span(stem, Digits);
    var gap := Span(stem[digits..], Separators);
    if 0 < digits < |stem| && gap > 0 && NumberAt(stem, digits) <= MAX_UINT16 then
      (if digits + gap < |stem| then stem[digits + gap..] else stem, Some(NumberAt(stem, digits)))
    else (stem, None)
  }

  function NumberAt(stem: string, digits: nat): nat
    requires digits <= Span(stem, Digits)
  {
    DigitsValue(stem[..digits])
  }

  function ParsedPath(segments: seq<string>): Option<TrackPath> {
    var parts := Parts(segments);
    if |parts| != 3 then None
    else match LastDot(parts[2])
      case None => None
      case Some(dot) =>
        if dot == 0 || dot == |parts[2]| - 1 then None
        else
          var t := TitleOf(parts[2][..dot]);
          Some(TrackPath(parts[0], parts[1], t.0, t.1, LowerAll(parts[2][dot + 1..])))
  }

  lemma SpanIs(s: string, kind: char -> bool, n: nat)
    requires n <= |s| && forall k :: 0 <= k < n ==> kind(s[k])
    requires n < |s| ==> !kind(s[n])
    ensures Span(s, kind) == n
  {}

  method ParseTrackPath(segments: seq<string>) returns (r: Option<TrackPath>)
    ensures r == ParsedPath(segments)
  {
    var parts := [];
    for i := 0 to |segments|
      invariant parts == Parts(segments[..i])
    {
      assert segments[..i + 1][..i] == segments[..i];
      if segments[i] != "" && segments[i] != "." {
        parts := parts + [segments[i]];
      }
    }
    assert segments[..|segments|] == segments;
    if |parts| != 3 {
      return None;
    }
    var filename := parts[2];
    var dot := LastDot(filename);
    if dot.None? || dot.value == 0 || dot.value == |filename| - 1 {
      return None;
    }
    var stem := filename[..dot.value];
    var number, title := SplitStem(stem);
    return Some(TrackPath(parts[0], parts[1], title, number, LowerAll(filename[dot.value + 1..])));
  }

  method SplitStem(stem: string) returns (number: Option<nat>, title: string)
    ensures (title, number) == TitleOf(stem)
  {
    hide Span, DigitsValue;
    number, title := None, stem;
    var digitEnd := 0;
    while digitEnd < |stem| && IsDigit(stem[digitEnd])
      invariant digitEnd <= |stem| && forall k :: 0 <= k < digitEnd ==> Digits(stem[k])
    {
      digitEnd := digitEnd + 1;
    }
    SpanIs(stem, Digits, digitEnd);
    if 0 < digitEnd < |stem| {
      var n := DigitsValue(stem[..digitEnd]);
      var skip := digitEnd;
      while skip < |stem| && IsSeparator(stem[skip])
        invariant digitEnd <= skip <= |stem|
        invariant forall k :: digitEnd <= k < skip ==> Separators(stem[k])
      {
        skip := skip + 1;
      }
      SpanIs(stem[digitEnd..], Separators, skip - digitEnd);
      if n <= MAX_UINT16 && skip > digitEnd {
        number := Some(n);
        title := stem[skip..];
      }
    }
    if title == "" {
      title := stem;
    }
  }

  /** A file in the documented layout is read back: number, separators, title and extension. */
  lemma NumberedNameReadsBack(artist: string, album: string, n: nat, gap: string, title: string, extension: string)
    requires artist !in ["", "."] && album !in ["", "."] && n <= MAX_UINT16
    requires gap != "" && (forall c :: c in gap ==> IsSeparator(c))
    requires title != "" && !IsSeparator(title[0]) && extension != "" && '.' !in extension
    ensures ParsedPath([artist, album, Decimal(n) + gap + title + "." + extension]) ==
            Some(TrackPath(artist, album, title, Some(n), LowerAll(extension)))
  {
    hide TitleOf, Decimal, Parts, LastDot;
    var stem := Decimal(n) + gap + title;
    PathParts(artist, album, stem + "." + extension);
    NameDot(stem, extension);
    NumberedTitle(n, gap, title);
  }

  lemma NumberedTitle(n: nat, gap: string, title: string)
    requires n <= MAX_UINT16 && gap != "" && (forall c :: c in gap ==> IsSeparator(c))
    requires title != "" && !IsSeparator(title[0])
    ensures TitleOf(Decimal(n) + gap + title) == (title, Some(n))
  {
    hide Decimal, DigitsValue;
    var stem, digits := Decimal(n) + gap + title, |Decimal(n)|;
    assert stem[..digits] == Decimal(n) && stem[digits..] == gap + title;
    assert IsSeparator(gap[0]) && stem[digits] == gap[0];
    assert forall k :: 0 <= k < digits ==> stem[k] == Decimal(n)[k] && Decimal(n)[k] in Decimal(n);
    SpanIs(stem, Digits, digits);
    assert forall k :: 0 <= k < |gap| ==> (gap + title)[k] == gap[k] && gap[k] in gap;
    SpanIs(gap + title, Separators, |gap|);
    assert stem[digits + |gap|..] == title;
    DecimalValue(n);
  }

  /** A name that does not start with a digit is all title. */
  lemma PlainNameReadsBack(artist: string, album: string, title: string, extension: string)
    requires artist !in ["", "."] && album !in ["", "."]
    requires title != "" && !IsDigit(title[0]) && extension != "" && '.' !in extension
    ensures ParsedPath([artist, album, title + "." + extension]) ==
            Some(TrackPath(artist, album, title, None, LowerAll(extension)))
  {
    PathParts(artist, album, title + "." + extension);
    NameDot(title, extension);
    SpanIs(title, Digits, 0);
  }

  lemma PathParts(artist: string, album: string, name: string)
    requires artist !in ["", "."] && album !in ["", "."] && |name| > 1
    ensures Parts([artist, album, name]) == [artist, album, name]
  {
    assert [artist, album, name][..2] == [artist, album] && [artist, album][..1] == [artist] && [artist][..0] == [];
    assert Parts([artist]) == [artist];
    assert Parts([artist, album]) == [artist, album];
  }

  lemma NameDot(stem: string, extension: string)
    requires '.' !in extension
    ensures var name := stem + "." + extension;
            LastDot(name) == Some(|stem|) && name[..|stem|] == stem && name[|stem| + 1..] == extension
  {
    var name := stem + "." + extension;
    assert name[|stem|] == '.';
    forall k | |stem| < k < |name| ensures name[k] != '.' {
      assert name[k] == extension[k - |stem| - 1];
    }
  }
}
