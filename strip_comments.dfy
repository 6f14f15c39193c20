/**
 * The directive-keeping part of the comment stripper
 * (server/stripcomments/main.go): which paths are skipped, which top-of-file
 * lines survive as a header, and how that header is written back in front
 * of the reformatted body. Go parsing and printing, `filepath.Match` and
 * `filepath.Base` are parameters; file and directory I/O is left out.
 */
module StripComments {
  import opened Wrappers
  import opened Text

  // ---------------------------------------------------------------- shouldExclude

  /**
   * `shouldExclude`: with no patterns nothing is excluded; otherwise the path
   * is excluded iff some pattern matches the whole path or its base name.
   * `matches` stands for `filepath.Match` with its error read as no match.
   */
  method ShouldExclude(path: string, patterns: seq<string>, matches: (string, string) -> bool, base: string -> string)
    returns (excluded: bool)
    ensures patterns == [] ==> !excluded
    ensures excluded <==>
      exists k :: 0 <= k < |patterns| && (matches(patterns[k], path) || matches(patterns[k], base(path)))
  {
    if |patterns| == 0 {
      return false;
    }
    var k := 0;
    while k < |patterns|
      invariant k <= |patterns|
      invariant forall j :: 0 <= j < k ==> !matches(patterns[j], path) && !matches(patterns[j], base(path))
    {
      if matches(patterns[k], path) {
        return true;
      }
      if matches(patterns[k], base(path)) {
        return true;
      }
      k := k + 1;
    }
    return false;
  }

  // ---------------------------------------------------------------- the directive pattern

  /** RE2's `\s`: tab, newline, form feed, carriage return and space. */
  predicate IsRe2Space(c: char) {
    var n := c as int;
    n == 0x09 || n == 0x0A || n == 0x0C || n == 0x0D || n == 0x20
  }

  /** `[A-Za-z0-9_]` */
  predicate IsWordChar(c: char) {
    'a' <= c <= 'z' || 'A' <= c <= 'Z' || '0' <= c <= '9' || c == '_'
  }

  /** `(?:\+build|go:build|go:[A-Za-z0-9_]+)` at the start of `r`; the rest of `r` is not looked at. */
  predicate DirectiveWord(r: string) {
    HasPrefix(r, "+build") || HasPrefix(r, "go:build") || (|r| > 3 && r[..3] == "go:" && IsWordChar(r[3]))
  }

  /** The regular expression matches with its `//` at index `i` and its directive word at index `j`. */
  predicate DirectiveAt(t: string, i: int, j: int) {
    0 <= i && i + 2 <= j <= |t| && AllSatisfy(t[..i], IsRe2Space) && t[i..i + 2] == "//" &&
    AllSatisfy(t[i + 2..j], IsRe2Space) && DirectiveWord(t[j..])
  }

  // The language of `^\s*//\s*(?:\+build|go:build|go:[A-Za-z0-9_]+)`, matched at the start of `t`.
  ghost predicate DirectivePattern(t: string) {
    exists i, j :: DirectiveAt(t, i, j)
  }

  /** The recogniser: skip spaces, expect "//", skip spaces, expect a directive word. */
  predicate IsDirective(t: string) {
    var s := TrimLeft(t, IsRe2Space);
    HasPrefix(s, "//") && DirectiveWord(TrimLeft(s[2..], IsRe2Space))
  }

  lemma IsDirectiveSound(t: string)
    requires IsDirective(t)
    ensures DirectivePattern(t)
  {
    var s := TrimLeft(t, IsRe2Space);
    TrimLeftSpec(t, IsRe2Space);
    var i := |t| - |s|;
    var r := TrimLeft(s[2..], IsRe2Space);
    TrimLeftSpec(s[2..], IsRe2Space);
    var j := |t| - |r|;
    assert t[i..i + 2] == s[..2];
    assert t[i + 2..j] == s[2..][..|s| - 2 - |r|];
    assert t[j..] == r;
    assert DirectiveAt(t, i, j);
  }

  lemma IsDirectiveComplete(t: string, i: int, j: int)
    requires DirectiveAt(t, i, j)
    ensures IsDirective(t)
  {
    TrimLeftAt(t, IsRe2Space, i);
    var s := t[i..];
    assert s[2..] == t[i + 2..];
    assert t[i + 2..][..j - i - 2] == t[i + 2..j];
    assert j < |t| && !IsRe2Space(t[j]) by {
      assert t[j..][0] == t[j];
    }
    TrimLeftAt(t[i + 2..], IsRe2Space, j - i - 2);
    assert t[i + 2..][j - i - 2..] == t[j..];
  }

  /** A line is a directive exactly when the regular expression matches it. */
  lemma IsDirectiveCorrect(t: string)
    ensures IsDirective(t) <==> DirectivePattern(t)
  {
    if IsDirective(t) {
      IsDirectiveSound(t);
    }
    if DirectivePattern(t) {
      var i, j :| DirectiveAt(t, i, j);
      IsDirectiveComplete(t, i, j);
    }
  }

  // ---------------------------------------------------------------- extractTopDirectives

  /** A line that ends the top-of-file scan: something other than blank or a `//` comment. */
  predicate Stops(l: string) {
    GoTrim(l) != "" && !HasPrefix(GoTrim(l), "//")
  }

  /** A scanned line that is kept: blank, or a `//` comment that is a directive. */
  predicate Keeps(l: string) {
    GoTrim(l) == "" || (HasPrefix(GoTrim(l), "//") && IsDirective(GoTrim(l)))
  }

  /** Index of the first line that stops the scan, or the number of lines. */
  function TopEnd(lines: seq<string>): (e: nat)
    ensures e <= |lines|
    ensures forall j :: 0 <= j < e ==> !Stops(lines[j])
    ensures e < |lines| ==> Stops(lines[e])
  {
    if lines == [] || Stops(lines[0]) then 0
    else
      var e := TopEnd(lines[1..]);
      assert forall j :: 1 <= j < e + 1 ==> lines[j] == lines[1..][j - 1];
      1 + e
  }

  lemma TopEndIs(lines: seq<string>, e: nat)
    requires e <= |lines| && (forall j :: 0 <= j < e ==> !Stops(lines[j])) && (e < |lines| ==> Stops(lines[e]))
    ensures TopEnd(lines) == e
  {
  }

  /** The kept lines among `lines`, in order. */
  function Kept(lines: seq<string>): (keep: seq<string>)
    ensures |keep| <= |lines|
  {
    if lines == [] then []
    else Kept(lines[..|lines| - 1]) + (if Keeps(lines[|lines| - 1]) then [lines[|lines| - 1]] else [])
  }

  /** `Kept` is a filter: it distributes over concatenation. */
  lemma {:induction false} KeptAppend(a: seq<string>, b: seq<string>)
    ensures Kept(a + b) == Kept(a) + Kept(b)
    decreases |b|
  {
    if b == [] {
      assert a + b == a;
    } else {
      var b' := b[..|b| - 1];
      assert (a + b)[..|a + b| - 1] == a + b';
      KeptAppend(a, b');
    }
  }

  /** Every kept line is one of the inputs, unchanged, and is blank or a directive. */
  lemma {:induction false} KeptFrom(lines: seq<string>, l: string)
    requires l in Kept(lines)
    ensures l in lines && Keeps(l)
  {
    var init := lines[..|lines| - 1];
    if l in Kept(init) {
      KeptFrom(init, l);
      assert init[IndexIn(init, l)] == lines[IndexIn(init, l)];
    }
  }

  function IndexIn(s: seq<string>, x: string): (k: nat)
    requires x in s
    ensures k < |s| && s[k] == x
  {
    if s[0] == x then 0 else 1 + IndexIn(s[1..], x)
  }

  /** The directives and the rest `extractTopDirectives` returns. */
  datatype Extracted = Extracted(directives: seq<string>, rest: string)

  /** The specification of `extractTopDirectives`. */
  function TopDirectives(src: string): (x: Extracted)
    ensures var lines := Split(src, '\n'); var e := TopEnd(lines);
      x.directives == Kept(lines[..e]) && x.rest == Join(lines[e..], "\n")
  {
    var lines := Split(src, '\n');
    var e := TopEnd(lines);
    Extracted(Kept(lines[..e]), Join(lines[e..], "\n"))
  }

  /** `extractTopDirectives`: scan lines from the top, keeping blanks and directives, until code starts. */
  method ExtractTopDirectives(src: string) returns (directives: seq<string>, rest: string)
    ensures Extracted(directives, rest) == TopDirectives(src)
  {
    var lines := Split(src, '\n');
    var keep := [];
    var i := 0;
    while i < |lines|
      invariant i <= TopEnd(lines)
      invariant keep == Kept(lines[..i])
    {
      var stop;
      keep, stop := ScanLine(keep, lines[i]);
      if stop {
        break;
      }
      assert lines[..i + 1] == lines[..i] + [lines[i]];
      KeptAppend(lines[..i], [lines[i]]);
      i := i + 1;
    }
    assert i == TopEnd(lines);
    directives := keep;
    rest := Join(lines[i..], "\n");
  }

  /** The body of that loop for one line: stop on code, else keep it if blank or a directive. */
  method ScanLine(keep: seq<string>, l: string) returns (keep': seq<string>, stop: bool)
    ensures stop <==> Stops(l)
    ensures stop ==> keep' == keep
    ensures !stop ==> keep' == keep + Kept([l])
  {
    assert [l][..0] == [];
    var trim := GoTrim(l);
    if |trim| == 0 {
      return keep + [l], false;
    }
    if HasPrefix(trim, "//") {
      keep' := keep;
      if IsDirective(trim) {
        keep' := keep + [l];
      }
      return keep', false;
    }
    return keep, true;
  }

  /** When every line is blank or a comment, nothing is left for the parser. */
  lemma NoCodeNoRest(src: string)
    requires forall l :: l in Split(src, '\n') ==> !Stops(l)
    ensures TopDirectives(src).rest == ""
  {
    var lines := Split(src, '\n');
    TopEndIs(lines, |lines|);
  }

  /** Nothing is lost: the source is the scanned lines, one newline, then the rest. */
  lemma RestIsTheTail(src: string)
    ensures var lines := Split(src, '\n'); var e := TopEnd(lines);
      (e == 0 ==> TopDirectives(src).rest == src) &&
      (0 < e < |lines| ==> src == Join(lines[..e], "\n") + "\n" + TopDirectives(src).rest)
  {
    var lines := Split(src, '\n');
    var e := TopEnd(lines);
    SplitJoin(src, '\n');
    assert lines[0..] == lines;
    if 0 < e < |lines| {
      assert lines == lines[..e] + lines[e..];
      JoinAppend(lines[..e], lines[e..], "\n");
    }
  }

  // ---------------------------------------------------------------- header emission

  /** One header line as written: with a '\n' added unless it already ends in one. */
  function Terminated(h: string): (w: string)
    ensures HasSuffix(w, "\n")
    ensures '\n' !in h ==> w == h + "\n"
  {
    if HasSuffix(h, "\n") then
      assert h[|h| - 1] == h[|h| - 1..][0];
      h
    else
      assert (h + "\n")[|h|..] == "\n";
      h + "\n"
  }

  /** All header lines, each written by `Terminated`. */
  function TerminatedAll(header: seq<string>): string {
    if header == [] then [] else TerminatedAll(header[..|header| - 1]) + Terminated(header[|header| - 1])
  }

  /** What `processFile` writes before the body: nothing for an empty header. */
  function HeaderText(header: seq<string>): (w: string)
    ensures header == [] ==> w == ""
  {
    if header == [] then ""
    else TerminatedAll(header) + (if HasSuffix(Join(header, "\n"), "\n\n") then "" else "\n")
  }

  /** The header-writing loop of `processFile`. */
  method WriteHeader(header: seq<string>) returns (buf: string)
    ensures buf == HeaderText(header)
  {
    buf := "";
    if |header| == 0 {
      return;
    }
    var k := 0;
    while k < |header|
      invariant k <= |header|
      invariant buf == TerminatedAll(header[..k])
    {
      assert header[..k + 1][..k] == header[..k];
      buf := WriteLine(buf, header[k]);
      k := k + 1;
    }
    assert header[..k] == header;
    if !HasSuffix(Join(header, "\n"), "\n\n") {
      buf := buf + "\n";
    }
  }

  /** One header line into the buffer: the line, then a '\n' unless it ends in one. */
  method WriteLine(buf: string, h: string) returns (buf': string)
    ensures buf' == buf + Terminated(h)
  {
    buf' := buf + h;
    if !HasSuffix(h, "\n") {
      buf' := buf' + "\n";
    }
  }

  /** For lines that hold no '\n', each one is written with exactly one newline after it. */
  lemma {:induction false} TerminatedAllJoin(header: seq<string>)
    requires header != [] && forall k :: 0 <= k < |header| ==> '\n' !in header[k]
    ensures TerminatedAll(header) == Join(header, "\n") + "\n"
    decreases |header|
  {
    var init := header[..|header| - 1];
    var h := header[|header| - 1];
    assert header == init + [h];
    assert TerminatedAll(header) == TerminatedAll(init) + Terminated(h);
    assert Terminated(h) == h + "\n";
    if init != [] {
      assert forall k :: 0 <= k < |init| ==> init[k] == header[k];
      TerminatedAllJoin(init);
      JoinSnoc(init, h, "\n");
      Regroup(Join(init, "\n"), "\n", h, "\n");
    } else {
      assert Join(header, "\n") == h;
    }
  }

  lemma Regroup(a: string, b: string, c: string, d: string)
    ensures (a + b) + (c + d) == ((a + b) + c) + d
  {
  }

  /** Directives taken from a source file always leave a blank line between header and body. */
  lemma HeaderEndsInBlankLine(header: seq<string>)
    requires header != [] && forall k :: 0 <= k < |header| ==> '\n' !in header[k]
    ensures HasSuffix(HeaderText(header), "\n\n")
  {
    TerminatedAllJoin(header);
    BlankLineAfter(Join(header, "\n"));
  }

  /** A text, a newline, and one more unless the text already ends in "\n\n", ends in "\n\n". */
  lemma BlankLineAfter(j: string)
    ensures HasSuffix(j + "\n" + (if HasSuffix(j, "\n\n") then "" else "\n"), "\n\n")
  {
    var w := j + "\n";
    if HasSuffix(j, "\n\n") {
      assert j[|j| - 1] == j[|j| - 2..][1];
      assert w + "" == w;
      EndsInTwoNewlines(w);
    } else {
      EndsInTwoNewlines(w + "\n");
    }
  }

  lemma EndsInTwoNewlines(w: string)
    requires |w| >= 2 && w[|w| - 2] == '\n' && w[|w| - 1] == '\n'
    ensures HasSuffix(w, "\n\n")
  {
    assert w[|w| - 2..] == "\n\n";
  }

  /** The directive lines come from splitting on '\n', so none holds one. */
  lemma DirectivesHaveNoNewline(src: string, k: nat)
    requires k < |TopDirectives(src).directives|
    ensures '\n' !in TopDirectives(src).directives[k]
  {
    var lines := Split(src, '\n');
    var d := TopDirectives(src).directives;
    KeptFrom(lines[..TopEnd(lines)], d[k]);
    var i := IndexIn(lines[..TopEnd(lines)], d[k]);
    assert d[k] == lines[i];
  }

  // ---------------------------------------------------------------- processFile

  /**
   * The output of `processFile`: the kept header (with the flag on) in front
   * of the formatted body; `format` stands for parsing and printing the Go
   * source, and fails as they do.
   */
  function ProcessOutput(orig: string, keepDirectives: bool, format: string -> Result<string>): (r: Result<string>)
    ensures !keepDirectives ==> r == format(orig)
    ensures keepDirectives && format(TopDirectives(orig).rest).Ok? ==>
      r == Ok(HeaderText(TopDirectives(orig).directives) + format(TopDirectives(orig).rest).value)
    ensures r.Err? <==> format(if keepDirectives then TopDirectives(orig).rest else orig).Err?
  {
    var x := if keepDirectives then TopDirectives(orig) else Extracted([], orig);
    match format(x.rest)
    case Err(e) => Err(e)
    case Ok(body) => if keepDirectives then Ok(HeaderText(x.directives) + body) else Ok(body)
  }

  method ProcessFile(orig: string, keepDirectives: bool, format: string -> Result<string>) returns (r: Result<string>)
    ensures r == ProcessOutput(orig, keepDirectives, format)
  {
    var header: seq<string> := [];
    var body := orig;
    if keepDirectives {
      header, body := ExtractTopDirectives(orig);
    }
    var formatted := format(body);
    if formatted.Err? {
      return Err(formatted.error);
    }
    var buf := "";
    if keepDirectives && |header| > 0 {
      buf := WriteHeader(header);
    }
    assert buf == (if keepDirectives then HeaderText(header) else "");
    assert "" + formatted.value == formatted.value;
    r := Ok(buf + formatted.value);
  }
}
