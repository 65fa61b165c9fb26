/** The mechanical derivation of the LAN page from the web page: the connection screen is cut out by exact
    line matching and brace counting, or the derivation refuses.
 */
module LanPage {

  datatype Reason = NotExactlyOne(found: nat) | NoClosingLine | NoOpeningBrace | NeverCloses

  datatype Result = Ok(lines: seq<string>) | Refused(reason: Reason)

  datatype Page = Page(text: string) | NoPage(reason: Reason)

  // ----- text and lines -----

  /** replace("\r\n", "\n") */
  function CrlfToLf(s: string): string {
    if s == "" then ""
    else if |s| >= 2 && s[0] == '\r' && s[1] == '\n' then ['\n'] + CrlfToLf(s[2..])
    else [s[0]] + CrlfToLf(s[1..])
  }

  /** replace("\r", "\n") */
  function CrToLf(s: string): string {
    if s == "" then "" else [if s[0] == '\r' then '\n' else s[0]] + CrToLf(s[1..])
  }

  function Normalize(s: string): string {
    CrToLf(CrlfToLf(s))
  }

  function Split(s: string): (lines: seq<string>)
    ensures |lines| > 0
  {
    if s == "" then [""]
    else
      var rest := Split(s[1..]);
      if s[0] == '\n' then [""] + rest else [[s[0]] + rest[0]] + rest[1..]
  }

  function Join(lines: seq<string>): string {
    if |lines| == 0 then "" else if |lines| == 1 then lines[0] else lines[0] + ['\n'] + Join(lines[1..])
  }

  // ----- the edits -----

  datatype Edit =
    | RemoveBlock(start: string, end: string)
    | ReplaceBlock(start: string, end: string, repl: seq<string>)
    | RemoveFunction(name: string)
    | ReplaceLine(marker: string, repl: seq<string>)

  predicate StartsWith(line: string, prefix: string) {
    prefix <= line
  }

  function Prefix(name: string): string {
    "    function " + name + "("
  }

  function Hits(lines: seq<string>, p: string -> bool): seq<nat> {
    if lines == [] then []
    else
      Hits(lines[..|lines| - 1], p) + (if p(lines[|lines| - 1]) then [|lines| - 1] else [])
  }

  function Is(marker: string): string -> bool {
    line => line == marker
  }

  function Defines(name: string): string -> bool {
    line => StartsWith(line, Prefix(name))
  }

  /** The first line equal to end, from index on; |lines| if there is none. */
  function NextLine(lines: seq<string>, end: string, index: nat): (k: nat)
    requires index <= |lines|
    ensures index <= k <= |lines| && (k < |lines| ==> lines[k] == end)
    decreases |lines| - index
  {
    if index == |lines| || lines[index] == end then index else NextLine(lines, end, index + 1)
  }

  function Braces(line: string): int {
    if line == "" then 0
    else (if line[0] == '{' then 1 else if line[0] == '}' then -1 else 0) + Braces(line[1..])
  }

  function Balance(lines: seq<string>): int {
    if lines == [] then 0 else Balance(lines[..|lines| - 1]) + Braces(lines[|lines| - 1])
  }

  /** The depth behind line j of a scan that starts at line a. */
  function DepthAt(lines: seq<string>, a: nat, j: nat): int
    requires a <= j < |lines|
  {
    Balance(lines[a..j + 1])
  }

  datatype Close = At(index: nat) | NoBrace | Never

  /** The scan for the closing brace: depth has been counted up to index. */
  function FindClose(lines: seq<string>, first: nat, index: nat, depth: int): (close: Close)
    requires first <= index <= |lines|
    ensures close.At? ==> first < close.index < |lines|
    decreases |lines| - index
  {
    if index == |lines| then Never
    else
      var d := depth + Braces(lines[index]);
      if d == 0 && index > first then At(index)
      else if d == 0 && index == first && '{' !in lines[index] then NoBrace
      else FindClose(lines, first, index + 1, d)
  }

  /** One blank line directly behind a removed block goes with it. */
  function DropBlank(lines: seq<string>, index: nat): seq<string> {
    if index < |lines| && lines[index] == "" then lines[..index] + lines[index + 1..] else lines
  }

  datatype Found = One(index: nat) | NotOne(count: nat)

  /** _find_one: the index of the one line that satisfies p. */
  function FindOne(lines: seq<string>, p: string -> bool): (f: Found)
    ensures f.One? ==>
      && f.index < |lines| && p(lines[f.index])
      && forall j :: 0 <= j < |lines| && p(lines[j]) ==> j == f.index
  {
    var hits := Hits(lines, p);
    if |hits| != 1 then NotOne(|hits|)
    else
      HitsAreHits(lines, p);
      assert hits[0] in hits;
      assert forall i :: i in hits ==> i == hits[0];
      One(hits[0])
  }

  /** The lines from first to last replaced, and a blank line directly behind them dropped. */
  function CutRun(lines: seq<string>, first: nat, last: nat, repl: seq<string>): seq<string>
    requires first <= last < |lines|
  {
    DropBlank(lines[..first] + repl + lines[last + 1..], first + |repl|)
  }

  function CutBlock(lines: seq<string>, start: string, end: string, repl: seq<string>): Result {
    match FindOne(lines, Is(start))
    case NotOne(n) => Refused(NotExactlyOne(n))
    case One(first) =>
      var k := NextLine(lines, end, first + 1);
      if k == |lines| then Refused(NoClosingLine)
      else Ok(CutRun(lines, first, k, repl))
  }

  function CutFunction(lines: seq<string>, name: string): Result {
    match FindOne(lines, Defines(name))
    case NotOne(n) => Refused(NotExactlyOne(n))
    case One(first) =>
      match FindClose(lines, first, first, 0)
      case NoBrace => Refused(NoOpeningBrace)
      case Never => Refused(NeverCloses)
      case At(k) => Ok(CutRun(lines, first, k, []))
  }

  function ChangeLine(lines: seq<string>, marker: string, repl: seq<string>): Result {
    match FindOne(lines, Is(marker))
    case NotOne(n) => Refused(NotExactlyOne(n))
    case One(index) => Ok(lines[..index] + repl + lines[index + 1..])
  }

  function Apply(lines: seq<string>, e: Edit): Result {
    match e
    case RemoveBlock(start, end) => CutBlock(lines, start, end, [])
    case ReplaceBlock(start, end, repl) => CutBlock(lines, start, end, repl)
    case RemoveFunction(name) => CutFunction(lines, name)
    case ReplaceLine(marker, repl) => ChangeLine(lines, marker, repl)
  }

  function ApplyAll(lines: seq<string>, edits: seq<Edit>): Result
    decreases |edits|
  {
    if edits == [] then Ok(lines)
    else
      match Apply(lines, edits[0])
      case Refused(reason) => Refused(reason)
      case Ok(next) => ApplyAll(next, edits[1..])
  }

  const HEADER_COMMENT := ["  <!-- LOGIN -->"]

  const COMMENT := "    // "

  // The verifier looks into string literals of up to about fifty characters; longer lines are put together.

  const ORIGIN_FUNCTION := "    function " + "resolveServerOrigin" + "() { return location.origin; }"

  const ORIGIN_COMMENT := [
    COMMENT + "LAN build: this page is served by the " + "HMS QR server itself, so the origin",
    COMMENT + "is the server. localStorage is " + "deliberately NOT read here - an address",
    COMMENT + "typed on the VPS build must never be " + "able to point the LAN page at a",
    COMMENT + "different machine, which is exactly the " + "confusion the two builds exist",
    COMMENT + "to remove."]

  const ORIGIN_REPLACEMENT := ORIGIN_COMMENT + [ORIGIN_FUNCTION]

  const INDENT := "      "

  const PILL_REPLACEMENT := [
    INDENT + "// The LAN build is served by the " + "server itself, so the origin is always",
    INDENT + "// resolved and the pill never needs hiding.",
    INDENT + "pill.hidden = false;"]

  const REMOVED_FUNCTIONS :=
    ["renderConnection", "openConnection", "closeConnection", "saveConnection", "clearConnection"]

  function Removals(names: seq<string>): seq<Edit> {
    seq(|names|, i requires 0 <= i < |names| => RemoveFunction(names[i]))
  }

  const CHIP := INDENT + "<div class='pill-btn' " + "onclick='openConnection()'>"

  const FIRST_EDITS := [
    RemoveBlock(CHIP, "      </div>"),
    ReplaceBlock("  <!-- CONNECTION / LOGIN -->", "  </div>", HEADER_COMMENT),
    ReplaceBlock("    const ORIGIN_KEY = 'hms-server-origin';", "    }", ORIGIN_REPLACEMENT)]

  const LAST_EDITS := [
    ReplaceLine("      pill.hidden = !serverOrigin;", PILL_REPLACEMENT),
    ReplaceLine("    renderConnection();", [])]

  function LanEdits(): seq<Edit> {
    FIRST_EDITS + Removals(REMOVED_FUNCTIONS) + LAST_EDITS
  }

  function Joined(r: Result): Page {
    match r
    case Ok(lines) => Page(Join(lines))
    case Refused(reason) => NoPage(reason)
  }

  /** The lines of the source, line endings normalized. */
  function SourceLines(source: string): seq<string> {
    Split(Normalize(source))
  }

  /** build_lan */
  function BuildLan(source: string): Page {
    Joined(ApplyAll(SourceLines(source), LanEdits()))
  }

  // ----- the scans -----

  method FindOnly(lines: seq<string>, p: string -> bool) returns (f: Found)
    ensures f == FindOne(lines, p)
  {
    var hits := [];
    for i := 0 to |lines|
      invariant hits == Hits(lines[..i], p)
    {
      assert lines[..i + 1][..i] == lines[..i];
      if p(lines[i]) {
        hits := hits + [i];
      }
    }
    assert lines[..|lines|] == lines;
    if |hits| != 1 {
      return NotOne(|hits|);
    }
    return One(hits[0]);
  }

  /** _remove_html_block and _replace_block */
  method ReplaceBlockLines(lines: seq<string>, start: string, end: string, repl: seq<string>) returns (r: Result)
    ensures r == CutBlock(lines, start, end, repl)
  {
    var found := FindOnly(lines, Is(start));
    if found.NotOne? {
      return Refused(NotExactlyOne(found.count));
    }
    var first := found.index;
    var index := ScanFor(lines, end, first + 1);
    if index == |lines| {
      return Refused(NoClosingLine);
    }
    return Ok(DropBlank(lines[..first] + repl + lines[index + 1..], first + |repl|));
  }

  method ScanFor(lines: seq<string>, end: string, start: nat) returns (index: nat)
    requires start <= |lines|
    ensures index == NextLine(lines, end, start)
  {
    index := start;
    while index < |lines|
      invariant start <= index <= |lines|
      invariant NextLine(lines, end, start) == NextLine(lines, end, index)
    {
      if lines[index] == end {
        return;
      }
      index := index + 1;
    }
  }

  /** _remove_js_function */
  method RemoveJsFunction(lines: seq<string>, name: string) returns (r: Result)
    ensures r == CutFunction(lines, name)
  {
    var found := FindOnly(lines, Defines(name));
    if found.NotOne? {
      return Refused(NotExactlyOne(found.count));
    }
    var first := found.index;
    var depth := 0;
    var index := first;
    while index < |lines|
      invariant first <= index <= |lines|
      invariant FindClose(lines, first, first, 0) == FindClose(lines, first, index, depth)
    {
      depth := depth + Braces(lines[index]);
      if depth == 0 && index > first {
        assert lines[..first] == lines[..first] + [];
        return Ok(DropBlank(lines[..first] + lines[index + 1..], first));
      }
      if depth == 0 && index == first && '{' !in lines[index] {
        return Refused(NoOpeningBrace);
      }
      index := index + 1;
    }
    return Refused(NeverCloses);
  }

  /** build_lan */
  method DeriveLan(source: string) returns (page: Page)
    ensures page == BuildLan(source)
  {
    var edits := LanEdits();
    var lines := SourceLines(source);
    for i := 0 to |edits|
      invariant ApplyAll(lines, edits[i..]) == ApplyAll(SourceLines(source), edits)
    {
      var r: Result;
      assert edits[i..][0] == edits[i] && edits[i..][1..] == edits[i + 1..];
      match edits[i] {
        case RemoveBlock(start, end) => r := ReplaceBlockLines(lines, start, end, []);
        case ReplaceBlock(start, end, repl) => r := ReplaceBlockLines(lines, start, end, repl);
        case RemoveFunction(name) => r := RemoveJsFunction(lines, name);
        case ReplaceLine(marker, repl) => r := ChangeLine(lines, marker, repl);
      }
      if r.Refused? {
        return NoPage(r.reason);
      }
      lines := r.lines;
    }
    return Page(Join(lines));
  }

  lemma {:induction false} HitsAreHits(lines: seq<string>, p: string -> bool)
    ensures forall i :: i in Hits(lines, p) <==> 0 <= i < |lines| && p(lines[i])
    decreases |lines|
  {
    if lines != [] {
      HitsAreHits(lines[..|lines| - 1], p);
    }
  }

  // ----- line endings do not matter -----

  /** The text with some of its line feeds turned into CRLF. */
  function Mixed(s: string, crlf: nat -> bool, at: nat): string {
    if s == "" then ""
    else (if s[0] == '\n' && crlf(at) then "\r\n" else [s[0]]) + Mixed(s[1..], crlf, at + 1)
  }

  lemma CrlfFirst(rest: string)
    ensures CrlfToLf("\r\n" + rest) == ['\n'] + CrlfToLf(rest)
  {
    assert ("\r\n" + rest)[2..] == rest;
  }

  lemma OtherFirst(c: char, rest: string)
    requires c != '\r'
    ensures CrlfToLf([c] + rest) == [c] + CrlfToLf(rest)
  {
    assert ([c] + rest)[1..] == rest;
  }

  lemma {:induction false} NormalizeMixed(s: string, crlf: nat -> bool, at: nat)
    requires '\r' !in s
    ensures CrlfToLf(Mixed(s, crlf, at)) == s
    decreases |s|
  {
    if s != "" {
      NormalizeMixed(s[1..], crlf, at + 1);
      var rest := Mixed(s[1..], crlf, at + 1);
      if s[0] == '\n' && crlf(at) { CrlfFirst(rest); } else { OtherFirst(s[0], rest); }
    }
  }

  lemma {:induction false} NoCrToReplace(s: string)
    requires '\r' !in s
    ensures CrToLf(s) == s
    decreases |s|
  {
    if s != "" { NoCrToReplace(s[1..]); }
  }

  /** However a checkout mixes LF and CRLF, the same page or the same refusal is derived. */
  lemma LineEndingsDoNotMatter(source: string, crlf: nat -> bool)
    requires '\r' !in source
    ensures Normalize(Mixed(source, crlf, 0)) == source == Normalize(source)
    ensures BuildLan(Mixed(source, crlf, 0)) == BuildLan(source)
  {
    NormalizeMixed(source, crlf, 0);
    NoCrToReplace(source);
    NormalizeMixed(source, _ => false, 0);
    NothingMixed(source, 0);
  }

  lemma {:induction false} NothingMixed(s: string, at: nat)
    ensures Mixed(s, _ => false, at) == s
    decreases |s|
  {
    if s != "" { NothingMixed(s[1..], at + 1); }
  }

  // ----- what an edit cuts -----

  /** Where a cut through line k - 1 ends: a blank line directly behind it goes with it. */
  function PastBlank(lines: seq<string>, k: nat): nat
    requires k <= |lines|
  {
    if k < |lines| && lines[k] == "" then k + 1 else k
  }

  function BlockRun(lines: seq<string>, start: string, end: string): (nat, nat)
    requires FindOne(lines, Is(start)).One? && NextLine(lines, end, FindOne(lines, Is(start)).index + 1) < |lines|
  {
    var first := FindOne(lines, Is(start)).index;
    (first, PastBlank(lines, NextLine(lines, end, first + 1) + 1))
  }

  /** The line that defines the function, and the line that closes it. */
  function Body(lines: seq<string>, name: string): (nat, nat)
    requires CutFunction(lines, name).Ok?
  {
    var first := FindOne(lines, Defines(name)).index;
    (first, FindClose(lines, first, first, 0).index)
  }

  /** The run of lines that an edit takes away: from the first index up to the second. */
  function RunOf(lines: seq<string>, e: Edit): (nat, nat)
    requires Apply(lines, e).Ok?
  {
    match e
    case RemoveBlock(start, end) => BlockRun(lines, start, end)
    case ReplaceBlock(start, end, _) => BlockRun(lines, start, end)
    case RemoveFunction(name) => (Body(lines, name).0, PastBlank(lines, Body(lines, name).1 + 1))
    case ReplaceLine(marker, _) => (FindOne(lines, Is(marker)).index, FindOne(lines, Is(marker)).index + 1)
  }

  /** out is lines with the run from a to b replaced by ins. */
  predicate IsSplice(lines: seq<string>, out: seq<string>, a: nat, b: nat, ins: seq<string>) {
    a <= b <= |lines| && out == lines[..a] + ins + lines[b..]
  }

  lemma CutRunIsSplice(lines: seq<string>, a: nat, last: nat, ins: seq<string>)
    requires a <= last < |lines|
    ensures IsSplice(lines, CutRun(lines, a, last, ins), a, PastBlank(lines, last + 1), ins)
  {
    var b := last + 1;
    var cut := lines[..a] + ins + lines[b..];
    if b < |lines| {
      assert cut[a + |ins|] == lines[b];
      assert cut[..a + |ins|] + cut[a + |ins| + 1..] == lines[..a] + ins + lines[b + 1..];
    }
  }

  /** Line a is the only one that satisfies p. */
  predicate OnlyAt(lines: seq<string>, p: string -> bool, a: nat) {
    a < |lines| && p(lines[a]) && forall j :: 0 <= j < |lines| && p(lines[j]) ==> j == a
  }

  lemma {:induction false} NextLineIsFirst(lines: seq<string>, end: string, index: nat)
    requires index <= |lines|
    ensures forall j :: index <= j < NextLine(lines, end, index) ==> lines[j] != end
    decreases |lines| - index
  {
    if index < |lines| && lines[index] != end { NextLineIsFirst(lines, end, index + 1); }
  }

  /** A block is cut from the only line equal to start through the first line equal to end behind it, and a
      blank line behind that. */
  lemma BlockRunIsExact(lines: seq<string>, start: string, end: string)
    requires FindOne(lines, Is(start)).One? && NextLine(lines, end, FindOne(lines, Is(start)).index + 1) < |lines|
    ensures var (a, b) := BlockRun(lines, start, end); var k := NextLine(lines, end, a + 1);
            && OnlyAt(lines, Is(start), a) && a < k < |lines| && lines[k] == end && b == PastBlank(lines, k + 1)
            && (forall j :: a < j < k ==> lines[j] != end)
  {
    NextLineIsFirst(lines, end, FindOne(lines, Is(start)).index + 1);
  }

  lemma BlockIsSplice(lines: seq<string>, start: string, end: string, repl: seq<string>)
    requires CutBlock(lines, start, end, repl).Ok?
    ensures var (a, b) := BlockRun(lines, start, end);
            a < b && IsSplice(lines, CutBlock(lines, start, end, repl).lines, a, b, repl)
  {
    var a := FindOne(lines, Is(start)).index;
    var k := NextLine(lines, end, a + 1);
    assert CutBlock(lines, start, end, repl) == Ok(CutRun(lines, a, k, repl));
    CutRunIsSplice(lines, a, k, repl);
  }

  lemma {:induction false} BalanceAppend(xs: seq<string>, ys: seq<string>)
    ensures Balance(xs + ys) == Balance(xs) + Balance(ys)
    decreases |ys|
  {
    if ys == [] {
      assert xs + ys == xs;
    } else {
      assert (xs + ys)[..|xs + ys| - 1] == xs + ys[..|ys| - 1];
      BalanceAppend(xs, ys[..|ys| - 1]);
    }
  }

  /** The closing line is the first line behind index at which the depth is zero. */
  lemma {:induction false} CloseIsFirst(lines: seq<string>, first: nat, index: nat, depth: int)
    requires first <= index <= |lines| && depth == Balance(lines[first..index])
    requires FindClose(lines, first, index, depth).At?
    ensures var k := FindClose(lines, first, index, depth).index;
            && first < k < |lines| && index <= k && DepthAt(lines, first, k) == 0
            && forall j :: index <= j < k && first < j ==> DepthAt(lines, first, j) != 0
    decreases |lines| - index
  {
    assert lines[first..index + 1][..index - first] == lines[first..index];
    var d := depth + Braces(lines[index]);
    if !(d == 0 && index > first) { CloseIsFirst(lines, first, index + 1, d); }
  }

  /** A function is cut from the only line that defines it through the first later line at which its braces
      cancel out. */
  lemma BodyIsExact(lines: seq<string>, name: string)
    requires CutFunction(lines, name).Ok?
    ensures var (a, k) := Body(lines, name);
            && OnlyAt(lines, Defines(name), a) && a < k < |lines| && DepthAt(lines, a, k) == 0
            && forall j :: a < j < k ==> DepthAt(lines, a, j) != 0
  {
    var a := FindOne(lines, Defines(name)).index;
    assert lines[a..a] == [];
    CloseIsFirst(lines, a, a, 0);
  }

  /** Removing a function cuts its definition through its closing line, and a blank line behind it. */
  lemma FunctionIsSplice(lines: seq<string>, name: string)
    requires CutFunction(lines, name).Ok?
    ensures var (a, b) := RunOf(lines, RemoveFunction(name));
            && a + 2 <= b && IsSplice(lines, CutFunction(lines, name).lines, a, b, [])
            && Balance(lines[a..b]) == 0
  {
    BodyIsExact(lines, name);
    var (a, k) := Body(lines, name);
    assert CutFunction(lines, name) == Ok(CutRun(lines, a, k, []));
    CutRunIsSplice(lines, a, k, []);
    assert Balance(lines[a..k + 1]) == DepthAt(lines, a, k);
    BlankHasNoBraces(lines, a, k + 1, PastBlank(lines, k + 1));
  }

  lemma BlankHasNoBraces(lines: seq<string>, a: nat, b: nat, c: nat)
    requires a <= b <= |lines| && (c == b || (c == b + 1 <= |lines| && lines[b] == ""))
    ensures Balance(lines[a..c]) == Balance(lines[a..b])
  {
    if c == b + 1 {
      assert lines[a..c][..b - a] == lines[a..b];
      assert Braces("") == 0;
    }
  }

  predicate Undefined(lines: seq<string>, name: string) {
    forall line :: line in lines ==> !Defines(name)(line)
  }

  lemma SpliceBalance(lines: seq<string>, out: seq<string>, a: nat, b: nat)
    requires IsSplice(lines, out, a, b, []) && Balance(lines[a..b]) == 0
    ensures Balance(out) == Balance(lines)
  {
    assert lines == lines[..a] + lines[a..b] + lines[b..];
    BalanceAppend(lines[..a] + lines[a..b], lines[b..]);
    BalanceAppend(lines[..a], lines[a..b]);
    assert out == lines[..a] + lines[b..];
    BalanceAppend(lines[..a], lines[b..]);
  }

  /** Removing a function cuts one contiguous run whose braces cancel out, starting at its definition and
      at least two lines long; so the brace balance of the page is kept, and nothing defines the function
      any more. */
  lemma FunctionCut(lines: seq<string>, name: string)
    requires CutFunction(lines, name).Ok?
    ensures var (a, b) := RunOf(lines, RemoveFunction(name));
            && a + 2 <= b && IsSplice(lines, CutFunction(lines, name).lines, a, b, [])
            && Balance(lines[a..b]) == 0 && Defines(name)(lines[a])
    ensures Balance(CutFunction(lines, name).lines) == Balance(lines)
    ensures Undefined(CutFunction(lines, name).lines, name)
  {
    FunctionIsSplice(lines, name);
    BodyIsExact(lines, name);
    var (a, b) := RunOf(lines, RemoveFunction(name));
    var out := CutFunction(lines, name).lines;
    SpliceBalance(lines, out, a, b);
    forall line | line in out ensures !Defines(name)(line) {
      assert line in lines[..a] || line in lines[b..];
    }
  }

  /** The cut ends with the line that first closes the function exactly when the function is not complete on
      the line that defines it. */
  lemma CutIsExactIff(lines: seq<string>, name: string)
    requires CutFunction(lines, name).Ok?
    ensures var (a, k) := Body(lines, name);
            (forall j :: a <= j < k ==> DepthAt(lines, a, j) != 0) <==> Braces(lines[a]) != 0
  {
    BodyIsExact(lines, name);
    var (a, k) := Body(lines, name);
    OneLine(lines[a]);
    assert lines[a..a + 1] == [lines[a]];
    assert DepthAt(lines, a, a) == Braces(lines[a]);
  }

  lemma OneLine(line: string)
    ensures Balance([line]) == Braces(line)
  {
    assert [line][..0] == [];
    assert Balance([]) == 0;
  }

  /** A function that is complete on the line that defines it takes with it what follows: the shortest
      balanced run of lines behind it, at least one line long. */
  lemma OneLineFunctionSwallowsNext(lines: seq<string>, name: string)
    requires CutFunction(lines, name).Ok? && Braces(lines[Body(lines, name).0]) == 0
    ensures var (a, k) := Body(lines, name);
            var next := a + 1;
            && next <= k < |lines| && DepthAt(lines, next, k) == 0
            && (forall j :: next <= j < k ==> DepthAt(lines, next, j) != 0)
            && CutFunction(lines, name).lines == lines[..a] + lines[PastBlank(lines, k + 1)..]
  {
    BodyIsExact(lines, name);
    FunctionIsSplice(lines, name);
    var (a, k) := Body(lines, name);
    var next := a + 1;
    forall j | next <= j <= k ensures DepthAt(lines, a, j) == DepthAt(lines, next, j) {
      BehindOneLine(lines, a, j);
    }
  }

  lemma BehindOneLine(lines: seq<string>, a: nat, j: nat)
    requires a < j < |lines| && Braces(lines[a]) == 0
    ensures DepthAt(lines, a, j) == DepthAt(lines, a + 1, j)
  {
    assert lines[a..j + 1] == [lines[a]] + lines[a + 1..j + 1];
    BalanceAppend([lines[a]], lines[a + 1..j + 1]);
    OneLine(lines[a]);
  }

  // ----- the whole page -----

  function Inserted(e: Edit): seq<string> {
    match e
    case RemoveBlock(_, _) => []
    case ReplaceBlock(_, _, repl) => repl
    case RemoveFunction(_) => []
    case ReplaceLine(_, repl) => repl
  }

  /** Every edit replaces one contiguous run of lines. */
  lemma EditIsSplice(lines: seq<string>, e: Edit)
    requires Apply(lines, e).Ok?
    ensures var (a, b) := RunOf(lines, e); a < b && IsSplice(lines, Apply(lines, e).lines, a, b, Inserted(e))
  {
    match e
    case RemoveBlock(start, end) => BlockIsSplice(lines, start, end, []);
    case ReplaceBlock(start, end, repl) => BlockIsSplice(lines, start, end, repl);
    case RemoveFunction(name) => FunctionIsSplice(lines, name);
    case ReplaceLine(marker, repl) =>
  }

  /** Where each line of out comes from: its index in the source, or -1 for an inserted line.  Source lines
      come in their order, each at most once. */
  predicate From(src: seq<string>, out: seq<string>, origin: seq<int>, ins: seq<string>) {
    && |origin| == |out|
    && (forall j :: 0 <= j < |out| ==>
          (origin[j] == -1 && out[j] in ins) || (0 <= origin[j] < |src| && out[j] == src[origin[j]]))
    && (forall i, j :: 0 <= i < j < |out| && origin[i] >= 0 && origin[j] >= 0 ==> origin[i] < origin[j])
  }

  function New(n: nat): seq<int> {
    seq(n, _ => -1)
  }

  /** The origins after a splice that replaces the run from a to b by n lines. */
  function Spliced(origin: seq<int>, a: nat, b: nat, n: nat): seq<int>
    requires a <= b <= |origin|
  {
    origin[..a] + New(n) + origin[b..]
  }

  /** The source lines in the run from a to b. */
  function CutFrom(origin: seq<int>, a: nat, b: nat): set<int>
    requires a <= b <= |origin|
  {
    set o | o in origin[a..b] && o >= 0
  }

  /** The source lines that the runs of the edits take away. */
  function Gone(origin: seq<int>, mid: seq<string>, edits: seq<Edit>): set<int>
    requires |origin| == |mid| && ApplyAll(mid, edits).Ok?
    decreases |edits|
  {
    if edits == [] then {}
    else
      EditIsSplice(mid, edits[0]);
      var (a, b) := RunOf(mid, edits[0]);
      CutFrom(origin, a, b)
      + Gone(Spliced(origin, a, b, |Inserted(edits[0])|), Apply(mid, edits[0]).lines, edits[1..])
  }

  /** Exactly the source lines that are not gone are there. */
  ghost predicate Survive(src: seq<string>, origin: seq<int>, gone: set<int>) {
    forall i :: 0 <= i < |src| ==> (i in origin <==> i !in gone)
  }

  lemma SpliceKeepsOrigins(src: seq<string>, mid: seq<string>, out: seq<string>, origin: seq<int>, ins: seq<string>,
                           a: nat, b: nat, more: seq<string>)
    requires From(src, mid, origin, ins) && IsSplice(mid, out, a, b, more)
    ensures From(src, out, Spliced(origin, a, b, |more|), ins + more)
  {
    var next := Spliced(origin, a, b, |more|);
    forall j | 0 <= j < |out|
      ensures (next[j] == -1 && out[j] in ins + more) || (0 <= next[j] < |src| && out[j] == src[next[j]])
    {
      if j < a {
        assert out[j] == mid[j] && next[j] == origin[j];
      } else if j < a + |more| {
        assert out[j] == more[j - a] && next[j] == -1;
      } else {
        assert out[j] == mid[j - a - |more| + b] && next[j] == origin[j - a - |more| + b];
      }
    }
  }

  predicate Rising(origin: seq<int>) {
    forall i, j :: 0 <= i < j < |origin| && origin[i] >= 0 && origin[j] >= 0 ==> origin[i] < origin[j]
  }

  lemma SpliceTakesTheRun(origin: seq<int>, a: nat, b: nat, n: nat, i: int)
    requires a <= b <= |origin| && i >= 0 && Rising(origin)
    ensures i in Spliced(origin, a, b, n) <==> i in origin && i !in CutFrom(origin, a, b)
  {
    assert i in origin <==> i in origin[..a] || i in origin[a..b] || i in origin[b..] by {
      assert origin == origin[..a] + origin[a..b] + origin[b..];
    }
    assert i !in New(n);
    assert i in Spliced(origin, a, b, n) <==> i in origin[..a] || i in origin[b..];
    if i in origin[a..b] {
      var q :| a <= q < b && origin[q] == i;
      assert forall p :: 0 <= p < |origin| && p != q ==> origin[p] != i;
    }
  }

  function InsertedBy(edits: seq<Edit>): seq<string> {
    if edits == [] then [] else Inserted(edits[0]) + InsertedBy(edits[1..])
  }

  /** All lines that no edit cuts survive, in order; the only other lines are the inserted ones. */
  lemma {:induction false} LinesSurvive(src: seq<string>, mid: seq<string>, origin: seq<int>, ins: seq<string>,
                                        gone: set<int>, edits: seq<Edit>)
      returns (final: seq<int>)
    requires From(src, mid, origin, ins) && Survive(src, origin, gone) && ApplyAll(mid, edits).Ok?
    ensures From(src, ApplyAll(mid, edits).lines, final, ins + InsertedBy(edits))
    ensures Survive(src, final, gone + Gone(origin, mid, edits))
    decreases |edits|
  {
    if edits == [] {
      assert ins + [] == ins;
      assert gone + {} == gone;
      return origin;
    }
    EditIsSplice(mid, edits[0]);
    var (a, b) := RunOf(mid, edits[0]);
    var next, step := OneEdit(src, mid, origin, ins, gone, edits[0]);
    final := LinesSurvive(src, next, step, ins + Inserted(edits[0]), gone + CutFrom(origin, a, b), edits[1..]);
    Regroup(ins, Inserted(edits[0]), InsertedBy(edits[1..]));
    var later := Gone(step, next, edits[1..]);
    assert gone + CutFrom(origin, a, b) + later == gone + (CutFrom(origin, a, b) + later);
  }

  lemma OneEdit(src: seq<string>, mid: seq<string>, origin: seq<int>, ins: seq<string>, gone: set<int>, e: Edit)
      returns (next: seq<string>, step: seq<int>)
    requires From(src, mid, origin, ins) && Survive(src, origin, gone) && Apply(mid, e).Ok?
    ensures var (a, b) := RunOf(mid, e);
            && Apply(mid, e) == Ok(next) && a <= b <= |origin| && step == Spliced(origin, a, b, |Inserted(e)|)
            && From(src, next, step, ins + Inserted(e)) && Survive(src, step, gone + CutFrom(origin, a, b))
  {
    EditIsSplice(mid, e);
    var (a, b) := RunOf(mid, e);
    next := Apply(mid, e).lines;
    step := Spliced(origin, a, b, |Inserted(e)|);
    SpliceKeepsOrigins(src, mid, next, origin, ins, a, b, Inserted(e));
    forall i | 0 <= i < |src| ensures i in step <==> i !in gone + CutFrom(origin, a, b) {
      SpliceTakesTheRun(origin, a, b, |Inserted(e)|, i);
    }
  }

  lemma Regroup(a: seq<string>, b: seq<string>, c: seq<string>)
    ensures (a + b) + c == a + (b + c)
  {
  }

  lemma EditKeepsUndefined(lines: seq<string>, e: Edit, name: string)
    requires Undefined(lines, name) && Undefined(Inserted(e), name) && Apply(lines, e).Ok?
    ensures Undefined(Apply(lines, e).lines, name)
  {
    EditIsSplice(lines, e);
    var (a, b) := RunOf(lines, e);
    var out := Apply(lines, e).lines;
    forall line | line in out ensures !Defines(name)(line) {
      assert line in lines[..a] || line in Inserted(e) || line in lines[b..];
    }
  }

  /** Once the functions have been removed nothing brings them back, and each removal that is still to come
      removes its own. */
  lemma {:induction false} StaysUndefined(lines: seq<string>, edits: seq<Edit>, name: string)
    requires ApplyAll(lines, edits).Ok?
    requires Undefined(lines, name) || RemoveFunction(name) in edits
    requires forall i :: 0 <= i < |edits| ==> Undefined(Inserted(edits[i]), name)
    ensures Undefined(ApplyAll(lines, edits).lines, name)
    decreases |edits|
  {
    if edits != [] {
      if edits[0] == RemoveFunction(name) {
        FunctionCut(lines, name);
      } else if Undefined(lines, name) {
        EditKeepsUndefined(lines, edits[0], name);
      }
      StaysUndefined(Apply(lines, edits[0]).lines, edits[1..], name);
    }
  }

  lemma InsertedLines(e: Edit)
    requires e in LanEdits()
    ensures Inserted(e) == [] || Inserted(e) == HEADER_COMMENT || Inserted(e) == ORIGIN_REPLACEMENT
      || Inserted(e) == PILL_REPLACEMENT
  {
    assert e in FIRST_EDITS || e in Removals(REMOVED_FUNCTIONS) || e in LAST_EDITS;
  }

  lemma DiffersAt(line: string, name: string, i: nat)
    requires i < |Prefix(name)| && i < |line| && line[i] != Prefix(name)[i]
    ensures !Defines(name)(line)
  {
  }

  lemma RemovedPrefix(name: string)
    requires name in REMOVED_FUNCTIONS
    ensures |Prefix(name)| > 15 && |name| > 2
    ensures Prefix(name)[2] == ' ' && Prefix(name)[4] == 'f' && Prefix(name)[13] == name[0]
      && Prefix(name)[15] == name[2]
  {
  }

  lemma OriginDefinesNothing(name: string, line: string)
    requires name in REMOVED_FUNCTIONS && line in ORIGIN_REPLACEMENT
    ensures !Defines(name)(line)
  {
    RemovedPrefix(name);
    if line == ORIGIN_FUNCTION {
      if name[0] == 'r' { DiffersAt(line, name, 15); } else { DiffersAt(line, name, 13); }
    } else {
      assert line in ORIGIN_COMMENT;
      DiffersAt(line, name, 4);
    }
  }

  lemma HeaderDefinesNothing(name: string, line: string)
    requires name in REMOVED_FUNCTIONS && line in HEADER_COMMENT
    ensures !Defines(name)(line)
  {
    RemovedPrefix(name);
    DiffersAt(line, name, 2);
  }

  lemma PillDefinesNothing(name: string, line: string)
    requires name in REMOVED_FUNCTIONS && line in PILL_REPLACEMENT
    ensures !Defines(name)(line)
  {
    RemovedPrefix(name);
    DiffersAt(line, name, 4);
  }

  lemma InsertsDefineNothing(name: string, e: Edit)
    requires name in REMOVED_FUNCTIONS && e in LanEdits()
    ensures Undefined(Inserted(e), name)
  {
    InsertedLines(e);
    forall line | line in Inserted(e) ensures !Defines(name)(line) {
      if line in HEADER_COMMENT {
        HeaderDefinesNothing(name, line);
      } else if line in PILL_REPLACEMENT {
        PillDefinesNothing(name, line);
      } else {
        OriginDefinesNothing(name, line);
      }
    }
  }

  lemma EditsRemove(name: string)
    requires name in REMOVED_FUNCTIONS
    ensures RemoveFunction(name) in LanEdits()
    ensures forall i :: 0 <= i < |LanEdits()| ==> Undefined(Inserted(LanEdits()[i]), name)
  {
    var k :| 0 <= k < |REMOVED_FUNCTIONS| && REMOVED_FUNCTIONS[k] == name;
    assert Removals(REMOVED_FUNCTIONS)[k] == RemoveFunction(name);
    forall i | 0 <= i < |LanEdits()| ensures Undefined(Inserted(LanEdits()[i]), name) {
      InsertsDefineNothing(name, LanEdits()[i]);
    }
  }

  lemma GoneAfter(lines: seq<string>, edits: seq<Edit>, name: string)
    requires edits == LanEdits() && name in REMOVED_FUNCTIONS && ApplyAll(lines, edits).Ok?
    ensures Undefined(ApplyAll(lines, edits).lines, name)
  {
    EditsRemove(name);
    StaysUndefined(lines, edits, name);
  }

  // ----- from lines back to the text of the page -----

  predicate Unbroken(lines: seq<string>) {
    forall line :: line in lines ==> '\n' !in line
  }

  lemma {:induction false} SplitLines(line: string, rest: string)
    requires '\n' !in line
    ensures Split(line + (['\n'] + rest)) == [line] + Split(rest)
    decreases |line|
  {
    var s := line + (['\n'] + rest);
    if line == "" {
      assert s[1..] == rest;
    } else {
      assert s[1..] == line[1..] + (['\n'] + rest);
      SplitLines(line[1..], rest);
      assert [line[0]] + line[1..] == line;
    }
  }

  lemma {:induction false} SplitOne(line: string)
    requires '\n' !in line
    ensures Split(line) == [line]
    decreases |line|
  {
    if line != "" {
      SplitOne(line[1..]);
      assert [line[0]] + line[1..] == line;
    }
  }

  /** The page read back line by line. */
  lemma {:induction false} SplitJoin(lines: seq<string>)
    requires lines != [] && Unbroken(lines)
    ensures Split(Join(lines)) == lines
    decreases |lines|
  {
    if |lines| == 1 {
      SplitOne(lines[0]);
    } else {
      SplitJoin(lines[1..]);
      SplitLines(lines[0], Join(lines[1..]));
      assert Join(lines) == lines[0] + (['\n'] + Join(lines[1..]));
      assert [lines[0]] + lines[1..] == lines;
    }
  }

  lemma {:induction false} SplitIsUnbroken(s: string)
    ensures Unbroken(Split(s))
    decreases |s|
  {
    if s != "" {
      SplitIsUnbroken(s[1..]);
      var rest := Split(s[1..]);
      forall line | line in Split(s) ensures '\n' !in line {
        assert line == "" || line in rest || line == [s[0]] + rest[0];
      }
    }
  }

  lemma {:induction false} StaysUnbroken(lines: seq<string>, edits: seq<Edit>)
    requires Unbroken(lines) && ApplyAll(lines, edits).Ok?
    requires forall i :: 0 <= i < |edits| ==> Unbroken(Inserted(edits[i]))
    ensures Unbroken(ApplyAll(lines, edits).lines)
    decreases |edits|
  {
    if edits != [] {
      EditIsSplice(lines, edits[0]);
      var (a, b) := RunOf(lines, edits[0]);
      var next := Apply(lines, edits[0]).lines;
      forall line | line in next ensures '\n' !in line {
        assert line in lines[..a] || line in Inserted(edits[0]) || line in lines[b..];
      }
      StaysUnbroken(next, edits[1..]);
    }
  }

  lemma {:induction false} ApplyAllAppend(lines: seq<string>, edits: seq<Edit>, more: seq<Edit>)
    ensures ApplyAll(lines, edits + more)
      == match ApplyAll(lines, edits) case Ok(mid) => ApplyAll(mid, more) case Refused(reason) => Refused(reason)
    decreases |edits|
  {
    if edits == [] {
      assert edits + more == more;
    } else {
      assert (edits + more)[0] == edits[0] && (edits + more)[1..] == edits[1..] + more;
      match Apply(lines, edits[0])
      case Ok(next) => ApplyAllAppend(next, edits[1..], more);
      case Refused(_) =>
    }
  }

  /** A line replaced by several and then a line removed leave something. */
  lemma LastTwoLeaveLines(lines: seq<string>, front: seq<Edit>, e: Edit, f: Edit)
    requires ApplyAll(lines, front + [e, f]).Ok? && |Inserted(e)| >= 2 && f.ReplaceLine?
    ensures ApplyAll(lines, front + [e, f]).lines != []
  {
    ApplyAllAppend(lines, front, [e, f]);
    var mid := ApplyAll(lines, front).lines;
    assert [e, f][1..] == [f] && [f][1..] == [];
    EditIsSplice(mid, e);
    var next := Apply(mid, e).lines;
    assert ApplyAll(mid, [e, f]) == ApplyAll(next, [f]);
    EditIsSplice(next, f);
    assert ApplyAll(next, [f]) == ApplyAll(Apply(next, f).lines, []);
  }

  lemma OriginLine0()
    ensures '\n' !in ORIGIN_COMMENT[0]
  {
    assert '\n' !in "LAN build: this page is served by the " && '\n' !in "HMS QR server itself, so the origin";
  }

  lemma OriginLine1()
    ensures '\n' !in ORIGIN_COMMENT[1]
  {
    assert '\n' !in "is the server. localStorage is " && '\n' !in "deliberately NOT read here - an address";
  }

  lemma OriginLine2()
    ensures '\n' !in ORIGIN_COMMENT[2]
  {
    assert '\n' !in "typed on the VPS build must never be " && '\n' !in "able to point the LAN page at a";
  }

  lemma OriginLine3()
    ensures '\n' !in ORIGIN_COMMENT[3]
  {
    assert '\n' !in "different machine, which is exactly the " && '\n' !in "confusion the two builds exist";
  }

  lemma OriginCommentIsUnbroken()
    ensures Unbroken(ORIGIN_COMMENT)
  {
    OriginLine0();
    OriginLine1();
    OriginLine2();
    OriginLine3();
  }

  lemma OriginFunctionIsUnbroken()
    ensures '\n' !in ORIGIN_FUNCTION
  {
    assert '\n' !in "() { return location.origin; }";
  }

  lemma PillLine0()
    ensures '\n' !in PILL_REPLACEMENT[0]
  {
    assert '\n' !in "// The LAN build is served by the " && '\n' !in "server itself, so the origin is always";
  }

  lemma PillLine1()
    ensures '\n' !in PILL_REPLACEMENT[1]
  {
    assert '\n' !in "// resolved and the pill never needs hiding.";
  }

  lemma PillIsUnbroken()
    ensures Unbroken(PILL_REPLACEMENT)
  {
    PillLine0();
    PillLine1();
  }

  lemma OriginIsUnbroken()
    ensures Unbroken(ORIGIN_REPLACEMENT)
  {
    OriginCommentIsUnbroken();
    OriginFunctionIsUnbroken();
  }

  lemma HeaderIsUnbroken()
    ensures Unbroken(HEADER_COMMENT)
  {
  }

  lemma InsertsAreUnbroken(e: Edit)
    requires e in LanEdits()
    ensures Unbroken(Inserted(e))
  {
    InsertedLines(e);
    HeaderIsUnbroken();
    OriginIsUnbroken();
    PillIsUnbroken();
  }

  /** Reading the derived page gives the edited lines. */
  lemma PageIsItsLines(source: string)
    requires BuildLan(source).Page?
    ensures ApplyAll(SourceLines(source), LanEdits()) == Ok(Split(BuildLan(source).text))
  {
    var src, edits := SourceLines(source), LanEdits();
    SplitIsUnbroken(Normalize(source));
    forall i | 0 <= i < |edits| ensures Unbroken(Inserted(edits[i])) { InsertsAreUnbroken(edits[i]); }
    StaysUnbroken(src, edits);
    LastTwoLeaveLines(src, FIRST_EDITS + Removals(REMOVED_FUNCTIONS), LAST_EDITS[0], LAST_EDITS[1]);
    SplitJoin(ApplyAll(src, edits).lines);
  }

  /** When the derivation succeeds, none of the five functions is defined on the LAN page. */
  lemma RemovedFunctionsAreGone(source: string, name: string)
    requires BuildLan(source).Page? && name in REMOVED_FUNCTIONS
    ensures Undefined(Split(BuildLan(source).text), name)
  {
    PageIsItsLines(source);
    GoneAfter(SourceLines(source), LanEdits(), name);
  }

  /** The lines of the source, each coming from itself. */
  function Itself(n: nat): seq<int> {
    seq(n, i => i)
  }

  /** On the derived page exactly the source lines survive that no edit cuts, in their order; every other line
      of the page is an inserted one. */
  lemma PageKeepsItsLines(source: string) returns (origin: seq<int>)
    requires BuildLan(source).Page?
    ensures ApplyAll(SourceLines(source), LanEdits()).Ok?
    ensures var src := SourceLines(source);
            && From(src, Split(BuildLan(source).text), origin, InsertedBy(LanEdits()))
            && Survive(src, origin, Gone(Itself(|src|), src, LanEdits()))
  {
    PageIsItsLines(source);
    origin := AllSurvive(SourceLines(source), LanEdits());
  }

  lemma AllSurvive(src: seq<string>, edits: seq<Edit>) returns (origin: seq<int>)
    requires ApplyAll(src, edits).Ok?
    ensures From(src, ApplyAll(src, edits).lines, origin, InsertedBy(edits))
    ensures Survive(src, origin, Gone(Itself(|src|), src, edits))
  {
    var all := Itself(|src|);
    forall i | 0 <= i < |src| ensures i in all { assert all[i] == i; }
    origin := LinesSurvive(src, src, all, [], {}, edits);
    assert [] + InsertedBy(edits) == InsertedBy(edits);
    assert {} + Gone(all, src, edits) == Gone(all, src, edits);
  }

  // ----- when an edit is refused -----

  /** The only line that satisfies p is the only hit. */
  lemma {:induction false} OnlyHit(lines: seq<string>, p: string -> bool, a: nat)
    requires OnlyAt(lines, p, a)
    ensures Hits(lines, p) == [a]
    decreases |lines|
  {
    var n := |lines| - 1;
    if a == n { NoHits(lines[..n], p); } else { OnlyHit(lines[..n], p, a); }
  }

  lemma {:induction false} NoHits(lines: seq<string>, p: string -> bool)
    requires forall j :: 0 <= j < |lines| ==> !p(lines[j])
    ensures Hits(lines, p) == []
    decreases |lines|
  {
    if lines != [] { NoHits(lines[..|lines| - 1], p); }
  }

  /** The search finds a line exactly when it is the only one. */
  lemma FoundIff(lines: seq<string>, p: string -> bool, a: nat)
    ensures FindOne(lines, p) == One(a) <==> OnlyAt(lines, p, a)
  {
    if OnlyAt(lines, p, a) { OnlyHit(lines, p, a); }
  }

  lemma {:induction false} NextLineIff(lines: seq<string>, end: string, index: nat)
    requires index <= |lines|
    ensures NextLine(lines, end, index) < |lines| <==> exists k :: index <= k < |lines| && lines[k] == end
    decreases |lines| - index
  {
    if index < |lines| && lines[index] != end { NextLineIff(lines, end, index + 1); }
  }

  /** A block is cut exactly when its start line is there once and its end line somewhere behind. */
  lemma BlockIsCutIff(lines: seq<string>, start: string, end: string, repl: seq<string>)
    ensures CutBlock(lines, start, end, repl).Ok?
      <==> exists a: nat, k: nat :: OnlyAt(lines, Is(start), a) && a < k < |lines| && lines[k] == end
  {
    if CutBlock(lines, start, end, repl).Ok? {
      var a := FindOne(lines, Is(start)).index;
      NextLineIff(lines, end, a + 1);
      assert OnlyAt(lines, Is(start), a);
    }
    if exists a: nat, k: nat :: OnlyAt(lines, Is(start), a) && a < k < |lines| && lines[k] == end {
      var a: nat, k: nat :| OnlyAt(lines, Is(start), a) && a < k < |lines| && lines[k] == end;
      FoundIff(lines, Is(start), a);
      NextLineIff(lines, end, a + 1);
    }
  }

  lemma LineIsChangedIff(lines: seq<string>, marker: string, repl: seq<string>)
    ensures ChangeLine(lines, marker, repl).Ok? <==> exists a: nat :: OnlyAt(lines, Is(marker), a)
  {
    if ChangeLine(lines, marker, repl).Ok? {
      assert OnlyAt(lines, Is(marker), FindOne(lines, Is(marker)).index);
    }
    if exists a: nat :: OnlyAt(lines, Is(marker), a) {
      var a: nat :| OnlyAt(lines, Is(marker), a);
      FoundIff(lines, Is(marker), a);
    }
  }

  lemma {:induction false} ClosesIff(lines: seq<string>, first: nat, index: nat, depth: int)
    requires first < index <= |lines| && depth == Balance(lines[first..index])
    ensures FindClose(lines, first, index, depth).At?
      <==> exists k :: index <= k < |lines| && DepthAt(lines, first, k) == 0
    ensures FindClose(lines, first, index, depth) != NoBrace
    decreases |lines| - index
  {
    if index < |lines| {
      assert lines[first..index + 1][..index - first] == lines[first..index];
      assert DepthAt(lines, first, index) == depth + Braces(lines[index]);
      if depth + Braces(lines[index]) != 0 { ClosesIff(lines, first, index + 1, depth + Braces(lines[index])); }
    }
  }

  /** A function is cut exactly when it is defined once, its first line leaves the depth nonzero or holds a brace to
      open it, and the depth comes back to zero on a later line. */
  lemma FunctionIsCutIff(lines: seq<string>, name: string)
    ensures CutFunction(lines, name).Ok?
      <==> exists a: nat, k: nat ::
             && OnlyAt(lines, Defines(name), a) && (Braces(lines[a]) != 0 || '{' in lines[a])
             && a < k < |lines| && DepthAt(lines, a, k) == 0
  {
    if FindOne(lines, Defines(name)).One? {
      var a := FindOne(lines, Defines(name)).index;
      assert OnlyAt(lines, Defines(name), a);
      OneLine(lines[a]);
      assert lines[a..a + 1] == [lines[a]];
      ClosesIff(lines, a, a + 1, Braces(lines[a]));
      if CutFunction(lines, name).Ok? {
        var k := FindClose(lines, a, a, 0).index;
        assert FindClose(lines, a, a, 0) == FindClose(lines, a, a + 1, Braces(lines[a]));
        BodyIsExact(lines, name);
      }
    }
    if exists a: nat, k: nat ::
        && OnlyAt(lines, Defines(name), a) && (Braces(lines[a]) != 0 || '{' in lines[a])
        && a < k < |lines| && DepthAt(lines, a, k) == 0
    {
      var a: nat, k: nat :|
        && OnlyAt(lines, Defines(name), a) && (Braces(lines[a]) != 0 || '{' in lines[a])
        && a < k < |lines| && DepthAt(lines, a, k) == 0;
      FoundIff(lines, Defines(name), a);
      assert FindClose(lines, a, a, 0) == FindClose(lines, a, a + 1, Braces(lines[a]));
    }
  }

  // ----- no carriage return is left -----

  lemma {:induction false} CrToLfLeavesNone(s: string)
    ensures '\r' !in CrToLf(s) && |CrToLf(s)| == |s|
    ensures forall i :: 0 <= i < |s| ==> CrToLf(s)[i] == if s[i] == '\r' then '\n' else s[i]
  {
    if s != "" { CrToLfLeavesNone(s[1..]); }
  }

  /** A text whose lines end in a carriage return alone, as on old systems. */
  function WithCr(s: string): string {
    seq(|s|, i requires 0 <= i < |s| => if s[i] == '\n' then '\r' else s[i])
  }

  lemma {:induction false} NoLfNoPair(s: string)
    requires '\n' !in s
    ensures CrlfToLf(s) == s
  {
    if s != "" {
      if |s| >= 2 { assert s[1] != '\n'; }
      NoLfNoPair(s[1..]);
    }
  }

  /** Whatever the source, no carriage return is left; and lone ones end lines as line feeds do. */
  lemma NormalizeLeavesNoCr(source: string, s: string)
    requires '\r' !in s
    ensures '\r' !in Normalize(source)
    ensures Normalize(WithCr(s)) == s && BuildLan(WithCr(s)) == BuildLan(s)
  {
    CrToLfLeavesNone(CrlfToLf(source));
    NoLfNoPair(WithCr(s));
    CrToLfLeavesNone(WithCr(s));
    assert Normalize(WithCr(s)) == s;
    NormalizeMixed(s, _ => false, 0);
    NothingMixed(s, 0);
    NoCrToReplace(s);
  }
}
