/** Descriptions that end in a call site, and the pattern that reads the call site back. */
module IoLocations {
  import opened Base
  import opened Models
  import opened Text

  // ---------------------------------------------------------------- character classes

  /** `\s` on text: what `str.isspace` accepts. */
  predicate IsSpace(c: char) {
    || '\t' <= c <= '\r' || '\U{1C}' <= c <= ' ' || c == '\U{85}' || c == '\U{A0}' || c == '\U{1680}'
    || '\U{2000}' <= c <= '\U{200A}' || c == '\U{2028}' || c == '\U{2029}' || c == '\U{202F}' || c == '\U{205F}'
    || c == '\U{3000}'
  }

  predicate NotSpace(c: char) { !IsSpace(c) }

  /** What the proofs need of `\d`, the decimal digits of every script. */
  ghost predicate DigitClass(digit: char -> bool) {
    && (forall c :: '0' <= c <= '9' ==> digit(c))
    && (forall c :: digit(c) ==> c != ':' && !IsSpace(c))
  }

  predicate All(s: string, p: char -> bool) {
    forall i :: 0 <= i < |s| ==> p(s[i])
  }

  // ---------------------------------------------------------------- the pattern

  /** One way for `\s+at\s+(?P<path>\S+):\d+$` to match inside `d`: `$` also matches before a final
      newline. */
  ghost predicate MatchesWith(d: string, path: string, pre: string, gap: string, gap': string, num: string,
        end: string, digit: char -> bool) {
    && d == pre + gap + "at" + gap' + (path + ":" + num) + end
    && gap != "" && All(gap, IsSpace) && gap' != "" && All(gap', IsSpace)
    && path != "" && All(path, NotSpace) && num != "" && All(num, digit)
    && (end == "" || end == "\n")
  }

  ghost predicate Matches(d: string, path: string, digit: char -> bool) {
    exists pre, gap, gap', num, end :: MatchesWith(d, path, pre, gap, gap', num, end, digit)
  }

  /** Where the longest suffix of `s` with all characters in `keep` starts. */
  function RunStart(s: string, keep: char -> bool): (n: nat)
    ensures n <= |s|
    ensures All(s[n..], keep)
    ensures n > 0 ==> !keep(s[n - 1])
  {
    if s == "" || !keep(s[|s| - 1]) then |s| else RunStart(s[..|s| - 1], keep)
  }

  /** Without the final newline, if there is one. */
  function Chomp(d: string): string {
    if d != "" && d[|d| - 1] == '\n' then d[..|d| - 1] else d
  }

  /** The path of a trailing `path:digits`. */
  function PathOf(token: string, digit: char -> bool): Option<string> {
    var n := RunStart(token, digit);
    if n == |token| || n < 2 || token[n - 1] != ':' then None else Some(token[..n - 1])
  }

  /** The path at the end of `body`, given where its last token starts and where the gap before that
      starts. */
  function PathAfter(body: string, t: nat, g: nat, digit: char -> bool): Option<string>
    requires g <= t <= |body|
  {
    if g == t || g < 3 || body[g - 2] != 'a' || body[g - 1] != 't' || !IsSpace(body[g - 3]) then None
    else PathOf(body[t..], digit)
  }

  function GapStart(body: string): (g: nat)
    ensures g <= RunStart(body, NotSpace)
  {
    RunStart(body[..RunStart(body, NotSpace)], IsSpace)
  }

  /** `_operator_tuned_location_path`, read off the end of the description. */
  function LocationPath(d: string, digit: char -> bool): Option<string> {
    var body := Chomp(d);
    PathAfter(body, RunStart(body, NotSpace), GapStart(body), digit)
  }

  lemma {:induction false} RunStartAt(a: string, b: string, keep: char -> bool)
    requires All(b, keep) && (a == "" || !keep(a[|a| - 1]))
    ensures RunStart(a + b, keep) == |a|
    decreases |b|
  {
    if b == "" {
      assert a + b == a;
    } else {
      assert (a + b)[..|a + b| - 1] == a + b[..|b| - 1];
      RunStartAt(a, b[..|b| - 1], keep);
    }
  }

  lemma PathOfToken(path: string, num: string, digit: char -> bool)
    requires DigitClass(digit) && path != "" && num != "" && All(num, digit)
    ensures PathOf(path + ":" + num, digit) == Some(path)
  {
    assert path + ":" + num == (path + ":") + num;
    RunStartAt(path + ":", num, digit);
    assert (path + ":" + num)[..|path|] == path;
  }

  lemma GapFound(start: string, gap: string, token: string)
    requires start != "" && !IsSpace(start[|start| - 1])
    requires gap != "" && All(gap, IsSpace) && All(token, NotSpace)
    ensures RunStart(start + gap + token, NotSpace) == |start + gap|
    ensures GapStart(start + gap + token) == |start|
  {
    RunStartAt(start + gap, token, NotSpace);
    assert (start + gap + token)[..|start + gap|] == start + gap;
    RunStartAt(start, gap, IsSpace);
  }

  lemma BodyIsRead(pre: string, gap: string, gap': string, path: string, num: string, digit: char -> bool)
    requires DigitClass(digit)
    requires gap != "" && All(gap, IsSpace) && gap' != "" && All(gap', IsSpace)
    requires path != "" && All(path, NotSpace) && num != "" && All(num, digit)
    ensures var body := pre + gap + "at" + gap' + (path + ":" + num);
            PathAfter(body, RunStart(body, NotSpace), GapStart(body), digit) == Some(path)
  {
    var start, token := pre + gap + "at", path + ":" + num;
    assert All(num, NotSpace);
    GapFound(start, gap', token);
    var body := start + gap' + token;
    assert body[|start + gap'|..] == token;
    assert body[|start| - 2] == 'a' && body[|start| - 1] == 't' && body[|start| - 3] == gap[|gap| - 1];
    PathOfToken(path, num, digit);
  }

  lemma ChompEnd(body: string, end: string)
    requires body != "" && body[|body| - 1] != '\n' && (end == "" || end == "\n")
    ensures Chomp(body + end) == body
  {
    if end == "" {
      assert body + end == body;
    } else {
      assert (body + end)[..|body|] == body;
    }
  }

  /** The scan from the end finds the path of any match. */
  lemma MatchIsFound(d: string, path: string, digit: char -> bool)
    requires DigitClass(digit) && Matches(d, path, digit)
    ensures LocationPath(d, digit) == Some(path)
  {
    var pre, gap, gap', num, end :| MatchesWith(d, path, pre, gap, gap', num, end, digit);
    var body := pre + gap + "at" + gap' + (path + ":" + num);
    assert body[|body| - 1] == num[|num| - 1];
    assert !IsSpace(num[|num| - 1]) && IsSpace('\n');
    ChompEnd(body, end);
    BodyIsRead(pre, gap, gap', path, num, digit);
  }

  /** What the scan finds is a match. */
  lemma FoundIsMatch(d: string, digit: char -> bool)
    requires LocationPath(d, digit).Some?
    ensures Matches(d, LocationPath(d, digit).value, digit)
  {
    var body := Chomp(d);
    var t, g := RunStart(body, NotSpace), GapStart(body);
    var head, token := body[..t], body[t..];
    var n := RunStart(token, digit);
    var path, num := token[..n - 1], token[n..];
    var pre, gap, gap' := head[..g - 3], head[g - 3..g - 2], head[g..];
    TokenSplits(token, digit);
    HeadSplits(head, g);
    assert d == body + d[|body|..] && body == head + token;
    Assembled(d, head, token, d[|body|..], path, pre, gap, gap', num, digit);
  }

  lemma Assembled(d: string, head: string, token: string, end: string, path: string, pre: string, gap: string,
        gap': string, num: string, digit: char -> bool)
    requires d == head + token + end && head == pre + gap + "at" + gap' && token == path + ":" + num
    requires gap != "" && All(gap, IsSpace) && gap' != "" && All(gap', IsSpace)
    requires path != "" && All(path, NotSpace) && num != "" && All(num, digit) && (end == "" || end == "\n")
    ensures Matches(d, path, digit)
  {
    assert MatchesWith(d, path, pre, gap, gap', num, end, digit);
  }

  lemma TokenSplits(token: string, digit: char -> bool)
    requires PathOf(token, digit).Some? && All(token, NotSpace)
    ensures var n := RunStart(token, digit);
            && token == token[..n - 1] + ":" + token[n..]
            && All(token[..n - 1], NotSpace) && token[..n - 1] != "" && All(token[n..], digit) && token[n..] != ""
  {}

  lemma HeadSplits(head: string, g: nat)
    requires 3 <= g <= |head| && head[g - 2] == 'a' && head[g - 1] == 't'
    ensures head == head[..g - 3] + head[g - 3..g - 2] + "at" + head[g..]
  {
    assert head[g - 2..g] == "at";
  }

  /** The pattern matches exactly where the scan finds a path, and no description has two. */
  lemma LocationPathIsThePattern(d: string, path: string, digit: char -> bool)
    requires DigitClass(digit)
    ensures Matches(d, path, digit) <==> LocationPath(d, digit) == Some(path)
  {
    if Matches(d, path, digit) { MatchIsFound(d, path, digit); }
    if LocationPath(d, digit) == Some(path) { FoundIsMatch(d, digit); }
  }

  // ---------------------------------------------------------------- the printed descriptions

  /** A call or declaration in a Go file; `receiver` is the dotted chain. */
  datatype CallSite = CallSite(receiver: seq<string>, call: string, file: string, line: nat)

  function JoinDots(parts: seq<string>): string {
    if parts == [] then "" else if |parts| == 1 then parts[0] else parts[0] + "." + JoinDots(parts[1..])
  }

  function ReceiverLabel(e: CallSite): string {
    if e.receiver == [] then "<unqualified>" else JoinDots(e.receiver)
  }

  /** The suffix every description ends in. */
  function AtSite(file: string, line: nat): string {
    " at " + file + ":" + Decimal(line)
  }

  function ViaCall(e: CallSite): string {
    "via " + ReceiverLabel(e) + "." + e.call + "()"
  }

  function FileReadDescription(e: CallSite, literal: string): string {
    "file read " + literal + " " + ViaCall(e) + AtSite(e.file, e.line)
  }

  function FileWrittenDescription(e: CallSite, literal: string): string {
    "file written " + literal + " " + ViaCall(e) + AtSite(e.file, e.line)
  }

  function BinaryDescription(name: string, file: string, line: nat): string {
    "binary " + name + " via func main()" + AtSite(file, line)
  }

  ghost predicate PlainPath(file: string) {
    file != "" && All(file, NotSpace)
  }

  lemma LineIsDigits(line: nat, digit: char -> bool)
    requires DigitClass(digit)
    ensures Decimal(line) != "" && All(Decimal(line), digit)
  {}

  /** Reading a printed call site gives the file back exactly when its path is non-empty and free of
      whitespace, whatever stands before it. */
  lemma PrintedPathIsReadIff(before: string, file: string, line: nat, digit: char -> bool)
    requires DigitClass(digit)
    ensures LocationPath(before + AtSite(file, line), digit) == Some(file) <==> PlainPath(file)
  {
    var d := before + AtSite(file, line);
    LineIsDigits(line, digit);
    if PlainPath(file) {
      assert d == before + " " + "at" + " " + (file + ":" + Decimal(line)) + "";
      assert MatchesWith(d, file, before, " ", " ", Decimal(line), "", digit);
      MatchIsFound(d, file, digit);
    }
    if LocationPath(d, digit) == Some(file) {
      FoundIsMatch(d, digit);
    }
  }

  lemma {:induction false} RunStartSplits(a: string, b: string, keep: char -> bool)
    ensures RunStart(a + b, keep) == if RunStart(b, keep) > 0 then |a| + RunStart(b, keep) else RunStart(a, keep)
    decreases |b|
  {
    if b == "" {
      assert a + b == a;
    } else {
      assert (a + b)[|a + b| - 1] == b[|b| - 1];
      assert (a + b)[..|a + b| - 1] == a + b[..|b| - 1];
      RunStartSplits(a, b[..|b| - 1], keep);
    }
  }

  /** A space is never inside a token, nor a letter inside a gap. */
  lemma {:induction false} RunStartsAfter(s: string, k: nat, keep: char -> bool)
    requires k < |s| && !keep(s[k])
    ensures RunStart(s, keep) > k
    decreases |s|
  {
    if keep(s[|s| - 1]) {
      RunStartsAfter(s[..|s| - 1], k, keep);
    }
  }

  lemma PathAfterShift(before: string, s: string, t: nat, g: nat, digit: char -> bool)
    requires 3 <= g <= t <= |s|
    ensures PathAfter(before + s, |before| + t, |before| + g, digit) == PathAfter(s, t, g, digit)
  {
    assert (before + s)[|before| + t..] == s[t..];
  }

  /** The text before the suffix never matters, whatever it contains: the path read is a function of
      the file and line alone. */
  lemma TextBeforeNeverMatters(before: string, file: string, line: nat, digit: char -> bool)
    requires DigitClass(digit)
    ensures LocationPath(before + AtSite(file, line), digit) == LocationPath(AtSite(file, line), digit)
  {
    SiteEnds(file, line, digit);
    ShiftedLocation(before, AtSite(file, line), digit);
  }

  lemma ShiftedLocation(before: string, s: string, digit: char -> bool)
    requires |s| > 4 && s[2] == 't' && s[3] == ' ' && s[|s| - 1] != '\n'
    ensures LocationPath(before + s, digit) == LocationPath(s, digit)
  {
    ChompShift(before, s);
    ScanShift(before, s);
    ShiftedScan(before, s, before + s, digit);
  }

  lemma ShiftedScan(before: string, s: string, d: string, digit: char -> bool)
    requires d == before + s && Chomp(s) == s && Chomp(d) == d && GapStart(s) >= 3
    requires RunStart(d, NotSpace) == |before| + RunStart(s, NotSpace) && GapStart(d) == |before| + GapStart(s)
    ensures LocationPath(d, digit) == LocationPath(s, digit)
  {
    PathAfterShift(before, s, RunStart(s, NotSpace), GapStart(s), digit);
  }

  lemma ChompShift(before: string, s: string)
    requires s != "" && s[|s| - 1] != '\n'
    ensures Chomp(s) == s && Chomp(before + s) == before + s
  {
    assert (before + s)[|before + s| - 1] == s[|s| - 1];
  }

  lemma SiteEnds(file: string, line: nat, digit: char -> bool)
    requires DigitClass(digit)
    ensures var s := AtSite(file, line);
            |s| > 4 && s[2] == 't' && s[3] == ' ' && s[|s| - 1] != '\n'
  {
    var s, num := AtSite(file, line), Decimal(line);
    LineIsDigits(line, digit);
    assert s[|s| - 1] == num[|num| - 1] && digit(num[|num| - 1]);
    assert IsSpace('\n');
  }

  lemma ScanShift(before: string, s: string)
    requires |s| > 3 && s[2] == 't' && s[3] == ' '
    ensures RunStart(before + s, NotSpace) == |before| + RunStart(s, NotSpace)
    ensures GapStart(before + s) == |before| + GapStart(s) && GapStart(s) >= 3
  {
    var t := RunStart(s, NotSpace);
    TokenShift(before, s);
    HeadShift(before, s, t);
    PrefixShift(before, s, t);
  }

  lemma TokenShift(before: string, s: string)
    requires |s| > 3 && s[3] == ' '
    ensures RunStart(before + s, NotSpace) == |before| + RunStart(s, NotSpace) && RunStart(s, NotSpace) > 3
  {
    RunStartsAfter(s, 3, NotSpace);
    RunStartSplits(before, s, NotSpace);
  }

  lemma PrefixShift(before: string, s: string, t: nat)
    requires t <= |s|
    ensures (before + s)[..|before| + t] == before + s[..t]
  {}

  lemma HeadShift(before: string, s: string, t: nat)
    requires 3 < t <= |s| && s[2] == 't'
    ensures RunStart(before + s[..t], IsSpace) == |before| + RunStart(s[..t], IsSpace) && RunStart(s[..t], IsSpace) >= 3
  {
    RunStartsAfter(s[..t], 2, IsSpace);
    RunStartSplits(before, s[..t], IsSpace);
  }

  // ---------------------------------------------------------------- what a description says

  /** Two texts with one last word each agree in it and in what stands before it. */
  lemma LastWord(a: string, x: string, b: string, y: string)
    requires a + " " + x == b + " " + y && All(x, NotSpace) && All(y, NotSpace)
    ensures a == b && x == y
  {
    var s := a + " " + x;
    assert s == (a + " ") + x && s == (b + " ") + y;
    RunStartAt(a + " ", x, NotSpace);
    RunStartAt(b + " ", y, NotSpace);
    assert s[..|a|] == a && s[..|b|] == b;
    assert s[|a| + 1..] == x && s[|b| + 1..] == y;
  }

  lemma SiteWordIsPlain(file: string, line: nat)
    requires PlainPath(file)
    ensures All(file + ":" + Decimal(line), NotSpace)
  {
    var num := Decimal(line);
    forall i | 0 <= i < |file + ":" + num| ensures NotSpace((file + ":" + num)[i]) {
      if i > |file| { assert (file + ":" + num)[i] == num[i - |file| - 1]; }
    }
  }

  predicate AsciiDigit(c: char) { '0' <= c <= '9' }

  lemma SuffixCancels(a: string, b: string, w: string)
    requires a + w == b + w
    ensures a == b
  {
    assert a == (a + w)[..|a|] && b == (b + w)[..|b|];
  }

  lemma PrefixCancels(w: string, a: string, b: string)
    requires w + a == w + b
    ensures a == b
  {
    assert a == (w + a)[|w|..] && b == (w + b)[|w|..];
  }

  lemma SiteIsLastWord(a: string, file: string, line: nat)
    ensures a + AtSite(file, line) == (a + " at") + " " + (file + ":" + Decimal(line))
  {}

  lemma FileAndLine(file: string, line: nat, file': string, line': nat)
    requires file + ":" + Decimal(line) == file' + ":" + Decimal(line')
    ensures file == file' && line == line'
  {
    LineIsDigits(line, AsciiDigit);
    LineIsDigits(line', AsciiDigit);
    assert file' + ":" + Decimal(line') == file' + ":" + Decimal(line') + "";
    NumberIsLine(file, Decimal(line), file', Decimal(line'), "", AsciiDigit);
    DecimalRoundTrip(line);
    DecimalRoundTrip(line');
  }

  /** A printed call site determines its file and line. */
  lemma SiteDetermines(a: string, file: string, line: nat, b: string, file': string, line': nat)
    requires a + AtSite(file, line) == b + AtSite(file', line') && PlainPath(file) && PlainPath(file')
    ensures a == b && file == file' && line == line'
  {
    SiteWordIsPlain(file, line);
    SiteWordIsPlain(file', line');
    SiteIsLastWord(a, file, line);
    SiteIsLastWord(b, file', line');
    LastWord(a + " at", file + ":" + Decimal(line), b + " at", file' + ":" + Decimal(line'));
    SuffixCancels(a, b, " at");
    FileAndLine(file, line, file', line');
  }

  /** The call as it is printed. */
  function CallLabel(e: CallSite): string {
    (if e.receiver == [] then "<unqualified>" else JoinDots(e.receiver)) + "." + e.call + "()"
  }

  lemma CallIsLastWord(before: string, e: CallSite)
    ensures before + " " + ViaCall(e) == (before + " via") + " " + CallLabel(e)
  {}

  lemma ViaDetermines(kind: string, text: string, e: CallSite, text': string, e': CallSite)
    requires kind + text + " " + ViaCall(e) == kind + text' + " " + ViaCall(e')
    requires All(CallLabel(e), NotSpace) && All(CallLabel(e'), NotSpace)
    ensures text == text' && CallLabel(e) == CallLabel(e')
  {
    CallIsLastWord(kind + text, e);
    CallIsLastWord(kind + text', e');
    LastWord(kind + text + " via", CallLabel(e), kind + text' + " via", CallLabel(e'));
    SuffixCancels(kind + text, kind + text', " via");
    PrefixCancels(kind, text, text');
  }

  /** The suffix names the file and, in digits that read back as it, the line. */
  lemma SiteSays(file: string, line: nat)
    ensures exists digits :: All(digits, AsciiDigit) && ParseInt(digits) == line
                             && AtSite(file, line) == " at " + file + ":" + digits
  {
    LineIsDigits(line, AsciiDigit);
    DecimalRoundTrip(line);
  }

  /** With plain paths and calls without spaces, a description of a file read determines the literal, the
      call, the file and the line; */
  lemma FileReadDetermines(e: CallSite, text: string, e': CallSite, text': string)
    requires PlainPath(e.file) && PlainPath(e'.file) && All(CallLabel(e), NotSpace) && All(CallLabel(e'), NotSpace)
    ensures FileReadDescription(e, text) == FileReadDescription(e', text') <==>
            text == text' && CallLabel(e) == CallLabel(e') && e.file == e'.file && e.line == e'.line
  {
    ViaIsLabel(e, e');
    if FileReadDescription(e, text) == FileReadDescription(e', text') {
      SiteDetermines("file read " + text + " " + ViaCall(e), e.file, e.line,
                     "file read " + text' + " " + ViaCall(e'), e'.file, e'.line);
      ViaDetermines("file read ", text, e, text', e');
    }
  }

  /** so does one of a file written, */
  lemma FileWrittenDetermines(e: CallSite, text: string, e': CallSite, text': string)
    requires PlainPath(e.file) && PlainPath(e'.file) && All(CallLabel(e), NotSpace) && All(CallLabel(e'), NotSpace)
    ensures FileWrittenDescription(e, text) == FileWrittenDescription(e', text') <==>
            text == text' && CallLabel(e) == CallLabel(e') && e.file == e'.file && e.line == e'.line
  {
    ViaIsLabel(e, e');
    if FileWrittenDescription(e, text) == FileWrittenDescription(e', text') {
      SiteDetermines("file written " + text + " " + ViaCall(e), e.file, e.line,
                     "file written " + text' + " " + ViaCall(e'), e'.file, e'.line);
      ViaDetermines("file written ", text, e, text', e');
    }
  }

  lemma ViaIsLabel(e: CallSite, e': CallSite)
    ensures CallLabel(e) == CallLabel(e') ==> ViaCall(e) == ViaCall(e')
  {
    assert ViaCall(e) == "via " + CallLabel(e) && ViaCall(e') == "via " + CallLabel(e');
  }

  /** and one of a binary its name, file and line. */
  lemma BinaryDetermines(name: string, file: string, line: nat, name': string, file': string, line': nat)
    requires PlainPath(file) && PlainPath(file')
    ensures BinaryDescription(name, file, line) == BinaryDescription(name', file', line') <==>
            name == name' && file == file' && line == line'
  {
    if BinaryDescription(name, file, line) == BinaryDescription(name', file', line') {
      var a, b := "binary " + name + " via func main()", "binary " + name' + " via func main()";
      SiteDetermines(a, file, line, b, file', line');
      SuffixCancels("binary " + name, "binary " + name', " via func main()");
      PrefixCancels("binary ", name, name');
    }
  }

  // ---------------------------------------------------------------- the operator-tuning filters

  const EXCLUDED_FILE := "config/config.go"
  const EXCLUDED_MAIN := "cmd/main.go"
  const FILE_IO_EXCLUDED: set<string> := {EXCLUDED_FILE}
  const CLI_BINARY_EXCLUDED: set<string> := {EXCLUDED_MAIN}
  const BINARY_PREFIX := "binary "

  /** `path in excluded`, where no path is in no set. */
  predicate ExcludedAt(description: string, excluded: set<string>, digit: char -> bool) {
    var path := LocationPath(description, digit);
    path.Some? && path.value in excluded
  }

  predicate IsTunedFileRead(e: Entry<InputCategory>, digit: char -> bool) {
    e.category == FileRead && ExcludedAt(e.description, FILE_IO_EXCLUDED, digit)
  }

  predicate IsTunedFileWritten(e: Entry<OutputCategory>, digit: char -> bool) {
    e.category == FileWritten && ExcludedAt(e.description, FILE_IO_EXCLUDED, digit)
  }

  predicate IsTunedBinary(e: Entry<InputCategory>, digit: char -> bool) {
    && e.category == CliArgument && StartsWith(e.description, BINARY_PREFIX)
    && ExcludedAt(e.description, CLI_BINARY_EXCLUDED, digit)
  }

  lemma PlainSiteExcludedIff(before: string, file: string, line: nat, excluded: set<string>, digit: char -> bool)
    requires DigitClass(digit) && PlainPath(file)
    ensures ExcludedAt(before + AtSite(file, line), excluded, digit) <==> file in excluded
  {
    PrintedPathIsReadIff(before, file, line, digit);
  }

  /** For a file at a plain path a file-read entry is removed exactly when it was printed for an excluded
      call site, whatever literal and receiver it carries. */
  lemma FileReadFilterIsExact(site: CallSite, text: string, digit: char -> bool)
    requires DigitClass(digit) && PlainPath(site.file)
    ensures IsTunedFileRead(Entry(FileRead, FileReadDescription(site, text)), digit) <==> site.file == EXCLUDED_FILE
  {
    PlainSiteExcludedIff("file read " + text + " " + ViaCall(site), site.file, site.line, FILE_IO_EXCLUDED, digit);
  }

  lemma FileWrittenFilterIsExact(site: CallSite, text: string, digit: char -> bool)
    requires DigitClass(digit) && PlainPath(site.file)
    ensures IsTunedFileWritten(Entry(FileWritten, FileWrittenDescription(site, text)), digit) <==>
            site.file == EXCLUDED_FILE
  {
    PlainSiteExcludedIff("file written " + text + " " + ViaCall(site), site.file, site.line, FILE_IO_EXCLUDED, digit);
  }

  lemma BinaryDescriptionHasPrefix(name: string, file: string, line: nat)
    ensures StartsWith(BinaryDescription(name, file, line), BINARY_PREFIX)
  {
    assert BinaryDescription(name, file, line)[..7] == BINARY_PREFIX;
  }

  lemma BinaryFilterIsExact(name: string, file: string, line: nat, digit: char -> bool)
    requires DigitClass(digit) && PlainPath(file)
    ensures IsTunedBinary(Entry(CliArgument, BinaryDescription(name, file, line)), digit) <==> file == EXCLUDED_MAIN
  {
    PlainSiteExcludedIff("binary " + name + " via func main()", file, line, CLI_BINARY_EXCLUDED, digit);
    BinaryDescriptionHasPrefix(name, file, line);
  }

  /** The text ` at ` and the file end in whitespace, `at`, whitespace and the path. */
  ghost predicate EndsAtPath(file: string, path: string, pre: string, gap: string, gap': string) {
    && gap != "" && All(gap, IsSpace) && gap' != "" && All(gap', IsSpace)
    && " at " + file == pre + gap + "at" + gap' + path
  }

  /** Which path is read from a printed call site, for any file: a plain one that ends the text so. */
  lemma PathReadIff(before: string, file: string, line: nat, path: string, digit: char -> bool)
    requires DigitClass(digit)
    ensures LocationPath(before + AtSite(file, line), digit) == Some(path) <==>
            PlainPath(path) && exists pre, gap, gap' :: EndsAtPath(file, path, pre, gap, gap')
  {
    TextBeforeNeverMatters(before, file, line, digit);
    if pre, gap, gap' :| PlainPath(path) && EndsAtPath(file, path, pre, gap, gap') {
      EndIsRead(file, line, path, pre, gap, gap', digit);
    }
    if LocationPath(AtSite(file, line), digit) == Some(path) {
      ReadSiteEnds(file, line, path, digit);
    }
  }

  lemma ExcludedPathsArePlain()
    ensures PlainPath(EXCLUDED_FILE) && PlainPath(EXCLUDED_MAIN)
  {}

  lemma SiteExcludedIff(before: string, file: string, line: nat, path: string, digit: char -> bool)
    requires DigitClass(digit) && PlainPath(path)
    ensures ExcludedAt(before + AtSite(file, line), {path}, digit) <==>
            exists pre, gap, gap' :: EndsAtPath(file, path, pre, gap, gap')
  {
    PathReadIff(before, file, line, path, digit);
  }

  /** An entry is removed exactly when the text ` at ` and its path together end in whitespace, `at`,
      whitespace and the excluded path. */
  lemma FileReadRemovedIff(site: CallSite, text: string, digit: char -> bool)
    requires DigitClass(digit)
    ensures IsTunedFileRead(Entry(FileRead, FileReadDescription(site, text)), digit) <==>
            exists pre, gap, gap' :: EndsAtPath(site.file, EXCLUDED_FILE, pre, gap, gap')
  {
    ExcludedPathsArePlain();
    SiteExcludedIff("file read " + text + " " + ViaCall(site), site.file, site.line, EXCLUDED_FILE, digit);
  }

  lemma FileWrittenRemovedIff(site: CallSite, text: string, digit: char -> bool)
    requires DigitClass(digit)
    ensures IsTunedFileWritten(Entry(FileWritten, FileWrittenDescription(site, text)), digit) <==>
            exists pre, gap, gap' :: EndsAtPath(site.file, EXCLUDED_FILE, pre, gap, gap')
  {
    ExcludedPathsArePlain();
    SiteExcludedIff("file written " + text + " " + ViaCall(site), site.file, site.line, EXCLUDED_FILE, digit);
  }

  lemma BinaryRemovedIff(name: string, file: string, line: nat, digit: char -> bool)
    requires DigitClass(digit)
    ensures IsTunedBinary(Entry(CliArgument, BinaryDescription(name, file, line)), digit) <==>
            exists pre, gap, gap' :: EndsAtPath(file, EXCLUDED_MAIN, pre, gap, gap')
  {
    ExcludedPathsArePlain();
    SiteExcludedIff("binary " + name + " via func main()", file, line, EXCLUDED_MAIN, digit);
    BinaryDescriptionHasPrefix(name, file, line);
  }

  lemma EndIsRead(file: string, line: nat, path: string, pre: string, gap: string, gap': string, digit: char -> bool)
    requires DigitClass(digit) && PlainPath(path) && EndsAtPath(file, path, pre, gap, gap')
    ensures LocationPath(AtSite(file, line), digit) == Some(path)
  {
    var num := Decimal(line);
    LineIsDigits(line, digit);
    var head := pre + gap + "at" + gap';
    assert AtSite(file, line) == " at " + file + ":" + num;
    assert head + path + ":" + num == head + (path + ":" + num) + "";
    assert MatchesWith(AtSite(file, line), path, pre, gap, gap', num, "", digit);
    MatchIsFound(AtSite(file, line), path, digit);
  }

  lemma MatchedSite(file: string, line: nat, path: string, pre: string, gap: string, gap': string, num: string,
        end: string, digit: char -> bool)
    requires DigitClass(digit) && MatchesWith(AtSite(file, line), path, pre, gap, gap', num, end, digit)
    ensures " at " + file == pre + gap + "at" + gap' + path
  {
    var head := pre + gap + "at" + gap';
    LineIsDigits(line, digit);
    assert head + (path + ":" + num) + end == head + path + ":" + num + end;
    NumberIsLine(" at " + file, Decimal(line), head + path, num, end, digit);
  }

  lemma ReadSiteEnds(file: string, line: nat, path: string, digit: char -> bool)
    requires DigitClass(digit) && LocationPath(AtSite(file, line), digit) == Some(path)
    ensures PlainPath(path) && exists pre, gap, gap' :: EndsAtPath(file, path, pre, gap, gap')
  {
    FoundIsMatch(AtSite(file, line), digit);
    var pre, gap, gap', num, end :| MatchesWith(AtSite(file, line), path, pre, gap, gap', num, end, digit);
    MatchedSite(file, line, path, pre, gap, gap', num, end, digit);
    assert EndsAtPath(file, path, pre, gap, gap');
  }

  /** Two splits of one text at its last colon agree. */
  lemma NumberIsLine(a: string, num: string, b: string, num': string, end: string, digit: char -> bool)
    requires DigitClass(digit)
    requires a + ":" + num == b + ":" + num' + end
    requires num != "" && All(num, digit) && num' != "" && All(num', digit) && (end == "" || end == "\n")
    ensures a == b && num == num' && end == ""
  {
    var s := a + ":" + num;
    assert s[|s| - 1] == num[|num| - 1];
    assert IsSpace('\n');
    assert s[|s| - 1] == (b + ":" + num' + end)[|s| - 1];
    assert s == (a + ":") + num && s == (b + ":") + num';
    RunStartAt(a + ":", num, digit);
    RunStartAt(b + ":", num', digit);
    assert s[..|a|] == a && s[..|b|] == b;
    assert s[|a| + 1..] == num && s[|b| + 1..] == num';
  }

  lemma SpacedEndsAtPath(path: string)
    ensures EndsAtPath("a at " + path, path, " at a", " ", " ") && "a at " + path != path
  {
    assert |"a at " + path| != |path|;
    assert " at " + ("a at " + path) == " at a" + " " + "at" + " " + path;
  }

  /** A path with whitespace can be taken for the excluded one it ends in. */
  lemma SpacedSiteIsExcluded(before: string, line: nat, path: string, digit: char -> bool)
    requires DigitClass(digit) && PlainPath(path)
    ensures ExcludedAt(before + AtSite("a at " + path, line), {path}, digit) && "a at " + path !in {path}
  {
    SpacedEndsAtPath(path);
    EndingSiteIsExcluded(before, "a at " + path, line, path, " at a", " ", " ", digit);
  }

  lemma EndingSiteIsExcluded(before: string, file: string, line: nat, path: string, pre: string, gap: string,
        gap': string, digit: char -> bool)
    requires DigitClass(digit) && PlainPath(path) && EndsAtPath(file, path, pre, gap, gap')
    ensures ExcludedAt(before + AtSite(file, line), {path}, digit)
  {
    SiteExcludedIff(before, file, line, path, digit);
  }

  /** This entry is removed although its call site is not the excluded one; */
  lemma SpacedPathIsRemovedByMistake(digit: char -> bool)
    requires DigitClass(digit)
    ensures var site := CallSite(["os"], "Open", "a at " + EXCLUDED_FILE, 3);
            IsTunedFileRead(Entry(FileRead, FileReadDescription(site, "x")), digit) && site.file !in FILE_IO_EXCLUDED
  {
    var site := CallSite(["os"], "Open", "a at " + EXCLUDED_FILE, 3);
    ExcludedPathsArePlain();
    SpacedSiteIsExcluded("file read " + "x" + " " + ViaCall(site), 3, EXCLUDED_FILE, digit);
  }

  /** so is this one, */
  lemma SpacedWriteIsRemovedByMistake(digit: char -> bool)
    requires DigitClass(digit)
    ensures var site := CallSite(["os"], "Create", "a at " + EXCLUDED_FILE, 3);
            && IsTunedFileWritten(Entry(FileWritten, FileWrittenDescription(site, "x")), digit)
            && site.file !in FILE_IO_EXCLUDED
  {
    var site := CallSite(["os"], "Create", "a at " + EXCLUDED_FILE, 3);
    ExcludedPathsArePlain();
    SpacedSiteIsExcluded("file written " + "x" + " " + ViaCall(site), 3, EXCLUDED_FILE, digit);
  }

  /** and this one. */
  lemma SpacedBinaryIsRemovedByMistake(digit: char -> bool)
    requires DigitClass(digit)
    ensures var file := "a at " + EXCLUDED_MAIN;
            IsTunedBinary(Entry(CliArgument, BinaryDescription("x", file, 3)), digit) && file !in CLI_BINARY_EXCLUDED
  {
    ExcludedPathsArePlain();
    SpacedSiteIsExcluded("binary " + "x" + " via func main()", 3, EXCLUDED_MAIN, digit);
    BinaryDescriptionHasPrefix("x", "a at " + EXCLUDED_MAIN, 3);
  }
}
