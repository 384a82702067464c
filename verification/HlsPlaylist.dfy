/** Appending a media token to the URI lines of an HLS playlist. */
module HlsPlaylist {
  import opened Text
  import opened Sha256Spec
  import opened MediaToken

  /** The lines of a text; a text that ends in a newline has an empty line at its end. */
  function Lines(text: string): (lines: seq<string>)
    ensures lines != []
  {
    if text == "" then [""]
    else if text[0] == '\n' then [""] + Lines(text[1..])
    else
      var rest := Lines(text[1..]);
      [[text[0]] + rest[0]] + rest[1..]
  }

  function Join(lines: seq<string>): string
    requires lines != []
  {
    if |lines| == 1 then lines[0] else lines[0] + "\n" + Join(lines[1..])
  }

  /** A line is blank, a URI, or starts with `#`. */
  predicate IsUri(line: string) {
    line != "" && line[0] != '#'
  }

  function SignLine(line: string, suffix: string): string {
    if IsUri(line) then line + suffix else line
  }

  function SignLines(lines: seq<string>, suffix: string): seq<string> {
    seq(|lines|, i requires 0 <= i < |lines| => SignLine(lines[i], suffix))
  }

  function Signed(playlist: string, suffix: string): string {
    Join(SignLines(Lines(playlist), suffix))
  }

  function StripLine(line: string, suffix: string): string {
    if IsUri(line) && |line| >= |suffix| && line[|line| - |suffix|..] == suffix then line[..|line| - |suffix|] else line
  }

  function Stripped(playlist: string, suffix: string): string {
    var lines := Lines(playlist);
    Join(seq(|lines|, i requires 0 <= i < |lines| => StripLine(lines[i], suffix)))
  }

  // ---------- lines ----------

  lemma {:induction false} JoinLines(text: string)
    ensures Join(Lines(text)) == text
    ensures forall line :: line in Lines(text) ==> '\n' !in line
  {
    if text != "" {
      JoinLines(text[1..]);
      assert text == [text[0]] + text[1..];
      if text[0] != '\n' {
        var rest := Lines(text[1..]);
        assert Join([[text[0]] + rest[0]] + rest[1..]) == [text[0]] + Join(rest) by {
          if |rest| > 1 {
            assert ([[text[0]] + rest[0]] + rest[1..])[1..] == rest[1..];
            assert [text[0]] + rest[0] + "\n" + Join(rest[1..]) == [text[0]] + (rest[0] + "\n" + Join(rest[1..]));
          }
        }
      } else {
        assert ([""] + Lines(text[1..]))[1..] == Lines(text[1..]);
      }
    }
  }

  lemma {:induction false} LinesOfLine(line: string, rest: string)
    requires '\n' !in line
    ensures Lines(line + "\n" + rest) == [line] + Lines(rest)
    ensures Lines(line) == [line]
  {
    var text := line + "\n" + rest;
    if line == "" {
      assert text[1..] == rest;
    } else {
      LinesOfLine(line[1..], rest);
      assert text[1..] == line[1..] + "\n" + rest && line == [line[0]] + line[1..];
      assert text[0] == line[0] && line[0] in line;
    }
  }

  lemma {:induction false} LinesOfJoin(lines: seq<string>)
    requires lines != [] && forall line :: line in lines ==> '\n' !in line
    ensures Lines(Join(lines)) == lines
  {
    assert lines[0] in lines;
    if |lines| == 1 {
      LinesOfLine(lines[0], "");
    } else {
      LinesOfJoin(lines[1..]);
      LinesOfLine(lines[0], Join(lines[1..]));
    }
  }

  // ---------- the program ----------

  /** Where the next newline stands, or the end. */
  function LineEnd(t: string): (n: nat)
    ensures n <= |t| && '\n' !in t[..n] && (n < |t| ==> t[n] == '\n')
  {
    if t == "" || t[0] == '\n' then 0
    else
      assert t[..1 + LineEnd(t[1..])] == [t[0]] + t[1..][..LineEnd(t[1..])];
      1 + LineEnd(t[1..])
  }

  lemma SignedFirst(line: string, rest: string, suffix: string)
    requires '\n' !in line
    ensures Signed(line + "\n" + rest, suffix) == SignLine(line, suffix) + "\n" + Signed(rest, suffix)
    ensures Signed(line, suffix) == SignLine(line, suffix)
  {
    hide Lines, SignLine;
    LinesOfLine(line, rest);
    var lines := Lines(rest);
    var signed := SignLines([line] + lines, suffix);
    assert signed[0] == SignLine(line, suffix) && signed[1..] == SignLines(lines, suffix);
    assert SignLines([line], suffix) == [SignLine(line, suffix)];
  }

  lemma SignedStep(t: string, suffix: string)
    ensures var n := LineEnd(t);
            Signed(t, suffix) ==
              if n < |t| then SignLine(t[..n], suffix) + "\n" + Signed(t[n + 1..], suffix) else SignLine(t, suffix)
  {
    hide Signed, SignLine;
    var n := LineEnd(t);
    if n < |t| {
      CutAt(t, n);
      SignedFirst(t[..n], t[n + 1..], suffix);
    } else {
      assert t[..n] == t;
      SignedFirst(t, "", suffix);
    }
  }

  lemma CutAt(t: string, n: nat)
    requires n < |t| && t[n] == '\n'
    ensures t[..n] + "\n" + t[n + 1..] == t
  {}

  method WithSignedSegmentUrls(playlist: string, suffix: string) returns (out: string)
    ensures out == Signed(playlist, suffix)
  {
    hide Signed, LineEnd;
    if suffix == "" {
      EmptySuffix(playlist);
      return playlist;
    }
    out := "";
    var pos := 0;
    assert playlist[0..] == playlist;
    while pos < |playlist|
      invariant pos <= |playlist|
      invariant out + Signed(playlist[pos..], suffix) == Signed(playlist, suffix)
      decreases |playlist| - pos
    {
      ghost var rest, before := playlist[pos..], out;
      SignedStep(rest, suffix);
      var length := LineEnd(playlist[pos..]);
      var line := playlist[pos..pos + length];
      assert line == rest[..length];
      out := out + line;
      if line != "" && line[0] != '#' {
        out := out + suffix;
      }
      assert out == before + SignLine(line, suffix);
      if pos + length == |playlist| {
        assert line == rest;
        return;
      }
      out := out + "\n";
      assert rest[length + 1..] == playlist[pos + length + 1..];
      Associate(before, SignLine(line, suffix), "\n", Signed(rest[length + 1..], suffix));
      pos := pos + length + 1;
    }
    assert playlist[pos..] == "";
    SignedFirst("", "", suffix);
  }

  lemma Associate(a: string, b: string, c: string, d: string)
    ensures (a + b + c) + d == a + (b + c + d)
  {}

  lemma EmptySuffix(playlist: string)
    ensures Signed(playlist, "") == playlist
  {
    var lines := Lines(playlist);
    forall i | 0 <= i < |lines| ensures SignLine(lines[i], "") == lines[i] {
      assert lines[i] + "" == lines[i];
    }
    assert SignLines(lines, "") == lines;
    JoinLines(playlist);
  }

  // ---------- what it keeps ----------

  /** Line by line: URI lines get the suffix, and tags, blank lines and the final newline stay. */
  lemma SignedLineByLine(playlist: string, suffix: string)
    requires '\n' !in suffix
    ensures Lines(Signed(playlist, suffix)) == SignLines(Lines(playlist), suffix)
  {
    JoinLines(playlist);
    var lines := Lines(playlist);
    var signed := SignLines(lines, suffix);
    forall line | line in signed ensures '\n' !in line {
      var i :| 0 <= i < |signed| && signed[i] == line;
      assert lines[i] in lines;
    }
    LinesOfJoin(signed);
  }

  /** Stripping the suffix from the URI lines restores the playlist. */
  lemma StripRestores(playlist: string, suffix: string)
    requires '\n' !in suffix
    ensures Stripped(Signed(playlist, suffix), suffix) == playlist
  {
    SignedLineByLine(playlist, suffix);
    JoinLines(playlist);
    var lines := Lines(playlist);
    forall i | 0 <= i < |lines| ensures StripLine(SignLine(lines[i], suffix), suffix) == lines[i] {
      StripOne(lines[i], suffix);
    }
    assert seq(|lines|, i requires 0 <= i < |lines| => StripLine(SignLines(lines, suffix)[i], suffix)) == lines;
  }

  lemma StripOne(line: string, suffix: string)
    ensures StripLine(SignLine(line, suffix), suffix) == line
  {
    if IsUri(line) {
      assert (line + suffix)[|line|..] == suffix && (line + suffix)[..|line|] == line;
    }
  }

  /** Every playlist keeps its lines exactly under the suffixes that hold no newline. */
  lemma KeepsLinesExactly(suffix: string)
    ensures (forall playlist :: |Lines(Signed(playlist, suffix))| == |Lines(playlist)|) <==> '\n' !in suffix
  {
    hide Signed;
    if '\n' !in suffix {
      forall playlist ensures |Lines(Signed(playlist, suffix))| == |Lines(playlist)| {
        SignedLineByLine(playlist, suffix);
      }
    } else {
      NewlineSplits(suffix);
    }
  }

  lemma NewlineSplits(suffix: string)
    requires '\n' in suffix
    ensures |Lines(Signed("a", suffix))| > |Lines("a")|
  {
    hide Signed, Lines, SignLine;
    LinesOfLine("a", "");
    SignedFirst("a", "", suffix);
    var i :| 0 <= i < |suffix| && suffix[i] == '\n';
    assert SignLine("a", suffix) == "a" + suffix by { assert IsUri("a"); UriIsSigned("a", suffix); }
    ManyLines("a" + suffix, i + 1);
  }

  lemma UriIsSigned(line: string, suffix: string)
    requires IsUri(line)
    ensures SignLine(line, suffix) == line + suffix
  {}

  lemma ManyLines(text: string, k: nat)
    requires k < |text| && text[k] == '\n'
    ensures |Lines(text)| > 1
  {
    hide Lines;
    LineEndBound(text, k);
    var n := LineEnd(text);
    CutAt(text, n);
    LinesOfLine(text[..n], text[n + 1..]);
  }

  lemma {:induction false} LineEndBound(t: string, k: nat)
    requires k < |t| && t[k] == '\n'
    ensures LineEnd(t) <= k
  {
    if k > 0 && t[0] != '\n' {
      LineEndBound(t[1..], k - 1);
    }
  }

  // ---------- lines that end in CR LF ----------

  predicate EndsInReturn(line: string) {
    line != "" && line[|line| - 1] == '\r'
  }

  /** The suffix goes behind what a reader takes for the line, in front of the CR that belongs to its end. */
  function SignContent(line: string, suffix: string): string {
    if EndsInReturn(line) then SignLine(line[..|line| - 1], suffix) + "\r" else SignLine(line, suffix)
  }

  function SignContents(lines: seq<string>, suffix: string): seq<string> {
    seq(|lines|, i requires 0 <= i < |lines| =>
      if i < |lines| - 1 then SignContent(lines[i], suffix) else SignLine(lines[i], suffix))
  }

  /** The signing that section 4.1 of RFC 8216 asks for, where lines end in LF or in CR LF. */
  function SignedAsRead(playlist: string, suffix: string): string {
    Join(SignContents(Lines(playlist), suffix))
  }

  /** No blank line and no URI ends in CR LF. */
  predicate ReturnsInTagsOnly(lines: seq<string>) {
    forall i :: 0 <= i < |lines| - 1 && EndsInReturn(lines[i]) ==> lines[i][0] == '#'
  }

  lemma SignContentExactly(line: string, suffix: string)
    requires suffix != "" && suffix[0] != '\r'
    ensures SignLine(line, suffix) == SignContent(line, suffix) <==> EndsInReturn(line) ==> line[0] == '#'
  {
    if EndsInReturn(line) {
      var n := |line| - 1;
      assert line == line[..n] + "\r";
      if line[0] != '#' {
        assert SignLine(line, suffix)[n] == '\r';
        assert n > 0 ==> SignContent(line, suffix)[n] == suffix[0];
      }
    }
  }

  lemma SignContentStaysLine(line: string, suffix: string)
    requires '\n' !in line && '\n' !in suffix
    ensures '\n' !in SignLine(line, suffix) && '\n' !in SignContent(line, suffix)
  {}

  lemma JoinInjective(xs: seq<string>, ys: seq<string>)
    requires xs != [] && ys != [] && forall line :: line in xs || line in ys ==> '\n' !in line
    ensures Join(xs) == Join(ys) <==> xs == ys
  {
    LinesOfJoin(xs);
    LinesOfJoin(ys);
  }

  /** The program signs as the lines are read exactly when no blank line and no URI ends in CR LF. */
  lemma AsReadExactly(playlist: string, suffix: string)
    requires suffix != "" && suffix[0] != '\r' && '\n' !in suffix
    ensures Signed(playlist, suffix) == SignedAsRead(playlist, suffix) <==> ReturnsInTagsOnly(Lines(playlist))
  {
    hide Lines, Join, SignLine, SignContent;
    var lines := Lines(playlist);
    var xs, ys := SignLines(lines, suffix), SignContents(lines, suffix);
    JoinLines(playlist);
    forall i | 0 <= i < |lines| ensures '\n' !in xs[i] && '\n' !in ys[i] {
      assert lines[i] in lines;
      SignContentStaysLine(lines[i], suffix);
    }
    forall i | 0 <= i < |lines| - 1
      ensures xs[i] == ys[i] <==> EndsInReturn(lines[i]) ==> lines[i][0] == '#'
    {
      SignContentExactly(lines[i], suffix);
    }
    JoinInjective(xs, ys);
    if ReturnsInTagsOnly(lines) {
      assert xs == ys;
    }
  }

  // ---------- with the program's tokens ----------

  lemma {:induction false} HexHasNoNewline(d: seq<Byte>)
    ensures '\n' !in Hex(d)
  {
    hide HexDigit;
    if d != [] {
      HexHasNoNewline(d[..|d| - 1]);
      DigitIsNoNewline(d[|d| - 1] as nat / 16);
      DigitIsNoNewline(d[|d| - 1] as nat % 16);
    }
  }

  lemma DigitIsNoNewline(n: nat)
    requires n < 16
    ensures HexDigit(n) != '\n'
  {}

  lemma TokenHasNoNewline(secret: string, id: string, expires: int)
    requires IsBytes(secret) && IsBytes(id)
    ensures '\n' !in Suffix(secret, id, expires)
  {
    hide SignedDecimal, Hex, Hmac;
    SignedMessageIsBytes(id, expires);
    HexHasNoNewline(Hmac(Bytes(secret), Bytes(SignedMessage(id, expires))));
  }

  /** A playlist signed for a rendition keeps its lines, and taking the token off again restores it. */
  lemma SignedPlaylistRestores(playlist: string, secret: string, id: string, expires: int)
    requires IsBytes(secret) && IsBytes(id)
    ensures var suffix := Suffix(secret, id, expires);
            && |Lines(Signed(playlist, suffix))| == |Lines(playlist)|
            && Stripped(Signed(playlist, suffix), suffix) == playlist
  {
    hide Suffix, Signed, Stripped, Lines;
    TokenHasNoNewline(secret, id, expires);
    SignedLineByLine(playlist, Suffix(secret, id, expires));
    StripRestores(playlist, Suffix(secret, id, expires));
  }

  /** With the program's own tokens too. */
  lemma TokensAsReadExactly(playlist: string, secret: string, id: string, expires: int)
    requires IsBytes(secret) && IsBytes(id) && secret != ""
    ensures var suffix := Suffix(secret, id, expires);
            Signed(playlist, suffix) == SignedAsRead(playlist, suffix) <==> ReturnsInTagsOnly(Lines(playlist))
  {
    hide Signed, SignedAsRead, Lines, ReturnsInTagsOnly, Signature, SignedDecimal;
    TokenHasNoNewline(secret, id, expires);
    assert Suffix(secret, id, expires)[0] == '?';
    AsReadExactly(playlist, Suffix(secret, id, expires));
  }
}
