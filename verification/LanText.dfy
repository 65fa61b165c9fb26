/** What stands on the text of a derived LAN page and what does not: the lines that the edits look for are gone,
    and the lines that they insert stand unless a later edit cuts them.
 */
module LanText {

  import opened LanPage

  // ----- the marker lines go -----

  /** The edit takes away the only line equal to s. */
  predicate Clears(e: Edit, s: string) {
    match e
    case RemoveBlock(start, _) => start == s
    case ReplaceBlock(start, _, _) => start == s
    case RemoveFunction(_) => false
    case ReplaceLine(marker, _) => marker == s
  }

  lemma FirstOfRun(lines: seq<string>, e: Edit, s: string)
    requires Apply(lines, e).Ok? && Clears(e, s)
    ensures OnlyAt(lines, Is(s), RunOf(lines, e).0)
  {
  }

  lemma ClearedIsGone(lines: seq<string>, e: Edit, s: string)
    requires Apply(lines, e).Ok? && Clears(e, s) && s !in Inserted(e)
    ensures s !in Apply(lines, e).lines
  {
    FirstOfRun(lines, e, s);
    EditIsSplice(lines, e);
    var (a, b) := RunOf(lines, e);
    forall line | line in Apply(lines, e).lines ensures line != s {
      assert line in lines[..a] || line in Inserted(e) || line in lines[b..];
    }
  }

  lemma StaysAway(lines: seq<string>, e: Edit, s: string)
    requires Apply(lines, e).Ok? && s !in lines && s !in Inserted(e)
    ensures s !in Apply(lines, e).lines
  {
    EditIsSplice(lines, e);
    var (a, b) := RunOf(lines, e);
    forall line | line in Apply(lines, e).lines ensures line != s {
      assert line in lines[..a] || line in Inserted(e) || line in lines[b..];
    }
  }

  lemma {:induction false} LineGoes(lines: seq<string>, edits: seq<Edit>, s: string)
    requires ApplyAll(lines, edits).Ok?
    requires s !in lines || exists k :: 0 <= k < |edits| && Clears(edits[k], s)
    requires forall k :: 0 <= k < |edits| ==> s !in Inserted(edits[k])
    ensures s !in ApplyAll(lines, edits).lines
    decreases |edits|
  {
    if edits != [] {
      if Clears(edits[0], s) {
        ClearedIsGone(lines, edits[0], s);
      } else if s !in lines {
        StaysAway(lines, edits[0], s);
      } else {
        var k :| 0 <= k < |edits| && Clears(edits[k], s);
        assert edits[1..][k - 1] == edits[k];
      }
      LineGoes(Apply(lines, edits[0]).lines, edits[1..], s);
    }
  }

  lemma HeaderIsApart(s: string)
    requires |s| > 7 && (s[2] != '<' || s[7] != 'L')
    ensures s !in HEADER_COMMENT
  {
  }

  lemma OriginIsApart(s: string)
    requires |s| > 4 && s[4] != '/' && s[4] != 'f'
    ensures s !in ORIGIN_REPLACEMENT
  {
    assert ORIGIN_FUNCTION[4] == 'f';
    forall line | line in ORIGIN_COMMENT ensures line[4] == '/' {}
  }

  lemma PillIsApart(s: string)
    requires |s| > 20 && (s[4] != ' ' || (s[6] != '/' && (s[6] == 'p' ==> s[20] == '!')))
    ensures s !in PILL_REPLACEMENT
  {
    assert PILL_REPLACEMENT[0][6] == '/' && PILL_REPLACEMENT[1][6] == '/';
    assert PILL_REPLACEMENT[2][6] == 'p' && PILL_REPLACEMENT[2][20] == 'f';
    assert PILL_REPLACEMENT[0][4] == ' ' && PILL_REPLACEMENT[1][4] == ' ' && PILL_REPLACEMENT[2][4] == ' ';
  }

  lemma NeverInserted(s: string)
    requires |s| > 20 && (s[2] != '<' || s[7] != 'L') && s[4] != '/' && s[4] != 'f'
    requires s[4] != ' ' || (s[6] != '/' && (s[6] == 'p' ==> s[20] == '!'))
    ensures forall k :: 0 <= k < |LanEdits()| ==> s !in Inserted(LanEdits()[k])
  {
    HeaderIsApart(s);
    OriginIsApart(s);
    PillIsApart(s);
    forall k | 0 <= k < |LanEdits()| ensures s !in Inserted(LanEdits()[k]) {
      InsertedLines(LanEdits()[k]);
    }
  }

  /** A line that no edit inserts, told by a few of its characters. */
  predicate IsUnlikeInserted(s: string) {
    && |s| > 20 && (s[2] != '<' || s[7] != 'L') && s[4] != '/' && s[4] != 'f'
    && (s[4] != ' ' || (s[6] != '/' && (s[6] == 'p' ==> s[20] == '!')))
  }

  lemma MarkerGoes(source: string, edits: seq<Edit>, k: nat, s: string)
    requires BuildLan(source).Page? && edits == LanEdits() && k < |edits| && Clears(edits[k], s) && IsUnlikeInserted(s)
    ensures s !in Split(BuildLan(source).text)
  {
    NeverInserted(s);
    PageIsItsLines(source);
    LineGoes(SourceLines(source), edits, s);
  }

  lemma MarkersAreUnlikeInserted()
    ensures IsUnlikeInserted("      <div class='pill-btn' " + "onclick='openConnection()'>")
    ensures IsUnlikeInserted("  <!-- CONNECTION / LOGIN -->")
    ensures IsUnlikeInserted("    const ORIGIN_KEY = 'hms-server-origin';")
    ensures IsUnlikeInserted("      pill.hidden = !serverOrigin;")
    ensures IsUnlikeInserted("    renderConnection();")
  {
  }

  lemma MarkersAreCleared()
    ensures |LanEdits()| == 10
    ensures Clears(LanEdits()[0], "      <div class='pill-btn' " + "onclick='openConnection()'>")
    ensures Clears(LanEdits()[1], "  <!-- CONNECTION / LOGIN -->")
    ensures Clears(LanEdits()[2], "    const ORIGIN_KEY = 'hms-server-origin';")
    ensures Clears(LanEdits()[8], "      pill.hidden = !serverOrigin;")
    ensures Clears(LanEdits()[9], "    renderConnection();")
  {
  }

  /** On the derived page the connection chip is gone. */
  lemma ChipIsGone(source: string)
    requires BuildLan(source).Page?
    ensures "      <div class='pill-btn' " + "onclick='openConnection()'>" !in Split(BuildLan(source).text)
  {
    MarkersAreUnlikeInserted();
    MarkersAreCleared();
    MarkerGoes(source, LanEdits(), 0, "      <div class='pill-btn' " + "onclick='openConnection()'>");
  }

  /** So is the line that introduces the connection dialog. */
  lemma DialogIsGone(source: string)
    requires BuildLan(source).Page?
    ensures "  <!-- CONNECTION / LOGIN -->" !in Split(BuildLan(source).text)
  {
    MarkersAreUnlikeInserted();
    MarkersAreCleared();
    MarkerGoes(source, LanEdits(), 1, "  <!-- CONNECTION / LOGIN -->");
  }

  /** So is the stored origin. */
  lemma StoredOriginIsGone(source: string)
    requires BuildLan(source).Page?
    ensures "    const ORIGIN_KEY = 'hms-server-origin';" !in Split(BuildLan(source).text)
  {
    MarkersAreUnlikeInserted();
    MarkersAreCleared();
    MarkerGoes(source, LanEdits(), 2, "    const ORIGIN_KEY = 'hms-server-origin';");
  }

  /** So is the line that hides the pill. */
  lemma HidingIsGone(source: string)
    requires BuildLan(source).Page?
    ensures "      pill.hidden = !serverOrigin;" !in Split(BuildLan(source).text)
  {
    MarkersAreUnlikeInserted();
    MarkersAreCleared();
    MarkerGoes(source, LanEdits(), 8, "      pill.hidden = !serverOrigin;");
  }

  /** So is the call that drove the removed renderer. */
  lemma CallIsGone(source: string)
    requires BuildLan(source).Page?
    ensures "    renderConnection();" !in Split(BuildLan(source).text)
  {
    MarkersAreUnlikeInserted();
    MarkersAreCleared();
    MarkerGoes(source, LanEdits(), 9, "    renderConnection();");
  }

  // ----- the inserted lines stand -----

  predicate StandsAt(lines: seq<string>, run: seq<string>, p: nat) {
    p + |run| <= |lines| && lines[p..p + |run|] == run
  }

  /** The lines of run stand in lines, one directly behind the other. */
  ghost predicate Stands(lines: seq<string>, run: seq<string>) {
    exists p: nat :: StandsAt(lines, run, p)
  }

  /** The n lines from p on come from the n lines from i on. */
  predicate Tracks(origin: seq<int>, p: nat, i: nat, n: nat) {
    p + n <= |origin| && forall j :: p <= j < p + n ==> origin[j] == i + (j - p)
  }

  predicate Spared(gone: set<int>, i: nat, n: nat) {
    forall o :: i <= o < i + n ==> o !in gone
  }

  /** A cut that spares a run leaves it on one side. */
  lemma CutIsBeside(origin: seq<int>, a: nat, b: nat, p: nat, i: nat, n: nat)
    requires a < b <= |origin| && n > 0 && Tracks(origin, p, i, n) && Spared(CutFrom(origin, a, b), i, n)
    ensures p + n <= a || b <= p
  {
    if p < b && a < p + n { IsCut(origin, a, b, if p <= a then a else p); }
  }

  lemma IsCut(origin: seq<int>, a: nat, b: nat, j: nat)
    requires a <= j < b <= |origin| && origin[j] >= 0
    ensures origin[j] in CutFrom(origin, a, b)
  {
    assert origin[a..b][j - a] == origin[j];
  }

  /** Where position p is behind a splice that does not touch it. */
  function Moved(p: nat, a: nat, b: nat, n: nat): int {
    if p < a then p else p - b + (a + n)
  }

  lemma SliceStays<T>(s: seq<T>, out: seq<T>, a: nat, b: nat, ins: seq<T>, p: nat, n: nat)
    requires a <= b <= |s| && out == s[..a] + ins + s[b..]
    requires p + n <= |s| && n > 0 && (p + n <= a || b <= p)
    ensures 0 <= Moved(p, a, b, |ins|) && Moved(p, a, b, |ins|) + n <= |out|
    ensures out[Moved(p, a, b, |ins|)..][..n] == s[p..p + n]
  {
  }

  lemma SliceTracks(s: seq<int>, p: nat, i: nat, n: nat, out: seq<int>, next: nat)
    requires Tracks(s, p, i, n) && next + n <= |out| && out[next..][..n] == s[p..p + n]
    ensures Tracks(out, next, i, n)
  {
    forall j | next <= j < next + n ensures out[j] == i + (j - next) {
      assert out[j] == out[next..][..n][j - next] == s[p..p + n][j - next];
    }
  }

  /** And so in one piece. */
  lemma CutSparesRun(lines: seq<string>, out: seq<string>, origin: seq<int>, a: nat, b: nat, ins: seq<string>, p: nat,
                     i: nat, n: nat)
      returns (next: nat)
    requires |origin| == |lines| && a < b && IsSplice(lines, out, a, b, ins) && n > 0
    requires Tracks(origin, p, i, n) && Spared(CutFrom(origin, a, b), i, n)
    ensures Tracks(Spliced(origin, a, b, |ins|), next, i, n)
    ensures StandsAt(out, lines[p..p + n], next)
  {
    CutIsBeside(origin, a, b, p, i, n);
    SliceStays(lines, out, a, b, ins, p, n);
    SliceStays(origin, Spliced(origin, a, b, |ins|), a, b, New(|ins|), p, n);
    next := Moved(p, a, b, |ins|);
    SliceTracks(origin, p, i, n, Spliced(origin, a, b, |ins|), next);
    assert out[next..][..n] == out[next..next + n];
  }

  /** A run of lines that no edit cuts stands in one piece to the end. */
  lemma {:induction false} RunStays(lines: seq<string>, origin: seq<int>, edits: seq<Edit>, run: seq<string>, p: nat,
                                    i: nat)
    requires |origin| == |lines| && ApplyAll(lines, edits).Ok? && run != [] && StandsAt(lines, run, p)
    requires Tracks(origin, p, i, |run|) && Spared(Gone(origin, lines, edits), i, |run|)
    ensures Stands(ApplyAll(lines, edits).lines, run)
    decreases |edits|
  {
    if edits != [] {
      var next, out, step := EditSparesRun(lines, origin, edits, run, p, i);
      RunStays(out, step, edits[1..], run, next, i);
    }
  }

  lemma EditSparesRun(lines: seq<string>, origin: seq<int>, edits: seq<Edit>, run: seq<string>, p: nat, i: nat)
      returns (next: nat, out: seq<string>, step: seq<int>)
    requires |origin| == |lines| && run != [] && StandsAt(lines, run, p) && edits != []
    requires ApplyAll(lines, edits).Ok?
    requires Tracks(origin, p, i, |run|) && Spared(Gone(origin, lines, edits), i, |run|)
    ensures Apply(lines, edits[0]) == Ok(out) && |step| == |out| && StandsAt(out, run, next)
    ensures ApplyAll(out, edits[1..]) == ApplyAll(lines, edits)
    ensures Tracks(step, next, i, |run|) && Spared(Gone(step, out, edits[1..]), i, |run|)
  {
    var a, b, ins;
    a, b, ins, out, step := FirstCut(lines, origin, edits);
    SparedByBoth(Gone(origin, lines, edits), CutFrom(origin, a, b), Gone(step, out, edits[1..]), i, |run|);
    next := CutSparesRun(lines, out, origin, a, b, ins, p, i, |run|);
  }

  lemma FirstCut(lines: seq<string>, origin: seq<int>, edits: seq<Edit>)
      returns (a: nat, b: nat, ins: seq<string>, out: seq<string>, step: seq<int>)
    requires |origin| == |lines| && edits != [] && ApplyAll(lines, edits).Ok?
    ensures Apply(lines, edits[0]) == Ok(out) && a < b && IsSplice(lines, out, a, b, ins)
    ensures step == Spliced(origin, a, b, |ins|) && |step| == |out|
    ensures ApplyAll(out, edits[1..]) == ApplyAll(lines, edits)
    ensures Gone(origin, lines, edits) == CutFrom(origin, a, b) + Gone(step, out, edits[1..])
  {
    EditIsSplice(lines, edits[0]);
    var run := RunOf(lines, edits[0]);
    a, b, ins, out := run.0, run.1, Inserted(edits[0]), Apply(lines, edits[0]).lines;
    step := Spliced(origin, a, b, |ins|);
  }

  lemma SparedByBoth(gone: set<int>, now: set<int>, later: set<int>, i: nat, n: nat)
    requires gone == now + later && Spared(gone, i, n)
    ensures Spared(now, i, n) && Spared(later, i, n)
  {
    forall o | i <= o < i + n ensures o !in now && o !in later {
      assert o !in gone;
    }
  }

  /** Line i is the only one like it, and no edit inserts another. */
  predicate Unmatched(lines: seq<string>, edits: seq<Edit>, i: nat) {
    i < |lines| && OnlyAt(lines, Is(lines[i]), i) && lines[i] !in InsertedBy(edits)
  }

  /** A line that an edit cuts is not there in the end. */
  lemma CutLineIsAway(lines: seq<string>, edits: seq<Edit>, i: nat)
    requires ApplyAll(lines, edits).Ok? && Unmatched(lines, edits, i)
    requires i in Gone(Itself(|lines|), lines, edits)
    ensures lines[i] !in ApplyAll(lines, edits).lines
  {
    var origin := AllSurvive(lines, edits);
    var out := ApplyAll(lines, edits).lines;
    assert i !in origin;
    forall j | 0 <= j < |out| ensures out[j] != lines[i] {
      assert origin[j] != i;
      if origin[j] >= 0 { assert !Is(lines[i])(lines[origin[j]]); }
    }
  }

  /** Lines that are like no others stand in one piece in the end only when no edit cuts any of them. */
  lemma StandsOnlyIfSpared(lines: seq<string>, edits: seq<Edit>, i: nat, n: nat)
    requires ApplyAll(lines, edits).Ok? && i + n <= |lines|
    requires forall q :: i <= q < i + n ==> Unmatched(lines, edits, q)
    requires Stands(ApplyAll(lines, edits).lines, lines[i..i + n])
    ensures Spared(Gone(Itself(|lines|), lines, edits), i, n)
  {
    var out := ApplyAll(lines, edits).lines;
    var p: nat :| StandsAt(out, lines[i..i + n], p);
    forall o | i <= o < i + n ensures o !in Gone(Itself(|lines|), lines, edits) {
      LineOfRun(out, lines, i, n, p, o);
      if o in Gone(Itself(|lines|), lines, edits) { CutLineIsAway(lines, edits, o); }
    }
  }

  lemma LineOfRun(out: seq<string>, lines: seq<string>, i: nat, n: nat, p: nat, o: nat)
    requires i + n <= |lines| && i <= o < i + n && StandsAt(out, lines[i..i + n], p)
    ensures lines[o] in out
  {
    assert out[p..p + n][o - i] == lines[i..i + n][o - i];
    assert out[p + (o - i)] == lines[o];
  }

  /** The lines behind the first k edits. */
  function Mid(lines: seq<string>, edits: seq<Edit>, k: nat): seq<string>
    requires ApplyAll(lines, edits).Ok? && k <= |edits|
  {
    InStages(lines, edits, k);
    ApplyAll(lines, edits[..k]).lines
  }

  lemma InStages(lines: seq<string>, edits: seq<Edit>, k: nat)
    requires k <= |edits| && ApplyAll(lines, edits).Ok?
    ensures ApplyAll(lines, edits[..k]).Ok?
    ensures ApplyAll(ApplyAll(lines, edits[..k]).lines, edits[k..]) == ApplyAll(lines, edits)
  {
    ApplyAllAppend(lines, edits[..k], edits[k..]);
    assert edits[..k] + edits[k..] == edits;
  }

  lemma NextStage(lines: seq<string>, edits: seq<Edit>, k: nat)
    requires k < |edits| && ApplyAll(lines, edits).Ok?
    ensures Apply(Mid(lines, edits, k), edits[k]) == Ok(Mid(lines, edits, k + 1))
  {
    InStages(lines, edits, k);
    ApplyAllAppend(lines, edits[..k], [edits[k]]);
    assert edits[..k] + [edits[k]] == edits[..k + 1];
    assert edits[k..][0] == edits[k];
    var next := Apply(Mid(lines, edits, k), edits[k]).lines;
    assert ApplyAll(next, [edits[k]][1..]) == Ok(next);
  }

  /** Where the lines that edit k inserts stand behind it. */
  function InsertedAt(lines: seq<string>, edits: seq<Edit>, k: nat): nat
    requires ApplyAll(lines, edits).Ok? && k < |edits|
  {
    NextStage(lines, edits, k);
    RunOf(Mid(lines, edits, k), edits[k]).0
  }

  /** The lines behind edit k that a later edit cuts. */
  function CutLater(lines: seq<string>, edits: seq<Edit>, k: nat): set<int>
    requires ApplyAll(lines, edits).Ok? && k < |edits|
  {
    InStages(lines, edits, k + 1);
    var mid := Mid(lines, edits, k + 1);
    Gone(Itself(|mid|), mid, edits[k + 1..])
  }

  predicate Distinct(run: seq<string>) {
    forall i, j :: 0 <= i < j < |run| ==> run[i] != run[j]
  }

  /** The lines that edit k inserts stand in one piece in the end if no later edit cuts any of them. */
  lemma InsertStands(lines: seq<string>, edits: seq<Edit>, k: nat)
    requires ApplyAll(lines, edits).Ok? && k < |edits| && Inserted(edits[k]) != []
    requires Spared(CutLater(lines, edits, k), InsertedAt(lines, edits, k), |Inserted(edits[k])|)
    ensures Stands(ApplyAll(lines, edits).lines, Inserted(edits[k]))
  {
    var a, b := InsertedLie(lines, edits, k);
    InStages(lines, edits, k + 1);
    RunStaysFrom(Mid(lines, edits, k + 1), edits[k + 1..], Inserted(edits[k]), a);
  }

  lemma RunStaysFrom(mid: seq<string>, later: seq<Edit>, run: seq<string>, a: nat)
    requires ApplyAll(mid, later).Ok? && run != [] && StandsAt(mid, run, a)
    requires Spared(Gone(Itself(|mid|), mid, later), a, |run|)
    ensures Stands(ApplyAll(mid, later).lines, run)
  {
    RunStays(mid, Itself(|mid|), later, run, a, a);
  }

  lemma InsertedLie(lines: seq<string>, edits: seq<Edit>, k: nat) returns (a: nat, b: nat)
    requires ApplyAll(lines, edits).Ok? && k < |edits|
    ensures a == InsertedAt(lines, edits, k) && StandsAt(Mid(lines, edits, k + 1), Inserted(edits[k]), a)
    ensures IsSplice(Mid(lines, edits, k), Mid(lines, edits, k + 1), a, b, Inserted(edits[k]))
  {
    NextStage(lines, edits, k);
    EditIsSplice(Mid(lines, edits, k), edits[k]);
    var run := RunOf(Mid(lines, edits, k), edits[k]);
    a, b := run.0, run.1;
  }

  /** The lines that edit k inserts are like no others: all different, not in the source, and not inserted by any
      other edit. */
  predicate IsUnlike(lines: seq<string>, edits: seq<Edit>, k: nat)
    requires k < |edits|
  {
    && Distinct(Inserted(edits[k]))
    && forall line :: line in Inserted(edits[k]) ==>
         line !in lines && line !in InsertedBy(edits[..k]) && line !in InsertedBy(edits[k + 1..])
  }

  /** Lines like no others stand in one piece in the end exactly when no later edit cuts any of them. */
  lemma InsertStandsIff(lines: seq<string>, edits: seq<Edit>, k: nat)
    requires ApplyAll(lines, edits).Ok? && k < |edits| && Inserted(edits[k]) != [] && IsUnlike(lines, edits, k)
    ensures Stands(ApplyAll(lines, edits).lines, Inserted(edits[k]))
      <==> Spared(CutLater(lines, edits, k), InsertedAt(lines, edits, k), |Inserted(edits[k])|)
  {
    var ins, mid := Inserted(edits[k]), Mid(lines, edits, k + 1);
    if Spared(CutLater(lines, edits, k), InsertedAt(lines, edits, k), |ins|) { InsertStands(lines, edits, k); }
    if Stands(ApplyAll(lines, edits).lines, ins) {
      var a, b := InsertedLie(lines, edits, k);
      InStages(lines, edits, k + 1);
      BeforeInsert(lines, edits, k);
      InsertStandsOnlyIfSpared(Mid(lines, edits, k), mid, a, b, ins, edits[k + 1..]);
    }
  }

  lemma InsertStandsOnlyIfSpared(before: seq<string>, mid: seq<string>, a: nat, b: nat, ins: seq<string>,
                                 later: seq<Edit>)
    requires IsSplice(before, mid, a, b, ins) && Distinct(ins) && ApplyAll(mid, later).Ok?
    requires forall line :: line in ins ==> line !in before && line !in InsertedBy(later)
    requires Stands(ApplyAll(mid, later).lines, ins)
    ensures Spared(Gone(Itself(|mid|), mid, later), a, |ins|)
  {
    InsertIsUnmatched(before, mid, a, b, ins, later);
    assert mid[a..a + |ins|] == ins;
    StandsOnlyIfSpared(mid, later, a, |ins|);
  }

  lemma BeforeInsert(lines: seq<string>, edits: seq<Edit>, k: nat)
    requires ApplyAll(lines, edits).Ok? && k < |edits| && IsUnlike(lines, edits, k)
    ensures forall line :: line in Inserted(edits[k]) ==> line !in Mid(lines, edits, k)
  {
    InStages(lines, edits, k);
    var origin := AllSurvive(lines, edits[..k]);
    forall line | line in Mid(lines, edits, k) ensures line in lines || line in InsertedBy(edits[..k]) {}
  }

  lemma InsertIsUnmatched(before: seq<string>, mid: seq<string>, a: nat, b: nat, ins: seq<string>, later: seq<Edit>)
    requires IsSplice(before, mid, a, b, ins) && Distinct(ins)
    requires forall line :: line in ins ==> line !in before && line !in InsertedBy(later)
    ensures a + |ins| <= |mid| && forall q :: a <= q < a + |ins| ==> Unmatched(mid, later, q)
  {
    forall q | a <= q < a + |ins| ensures Unmatched(mid, later, q) {
      assert mid[q] == ins[q - a];
      OnlyInSplice(before, mid, a, b, ins, q);
    }
  }

  lemma OnlyInSplice(lines: seq<string>, out: seq<string>, a: nat, b: nat, ins: seq<string>, q: nat)
    requires IsSplice(lines, out, a, b, ins) && a <= q < a + |ins| && Distinct(ins) && ins[q - a] !in lines
    ensures OnlyAt(out, Is(out[q]), q)
  {
    forall j | 0 <= j < |out| && j != q ensures out[j] != out[q] {
      if j < a {
        assert out[j] == lines[j];
      } else if j >= a + |ins| {
        assert out[j] == lines[j - a - |ins| + b];
      }
    }
  }

  // ----- the inserted lines of the LAN page -----

  lemma InsertedByLan(k: nat)
    requires k < |LanEdits()|
    ensures Inserted(LanEdits()[k]) == (if k == 1 then HEADER_COMMENT else if k == 2 then ORIGIN_REPLACEMENT
                                        else if k == 8 then PILL_REPLACEMENT else [])
  {
    if 3 <= k < 8 { assert LanEdits()[k] == Removals(REMOVED_FUNCTIONS)[k - 3]; }
  }

  lemma {:induction false} NoneInserts(edits: seq<Edit>, line: string)
    requires forall k :: 0 <= k < |edits| ==> line !in Inserted(edits[k])
    ensures line !in InsertedBy(edits)
    decreases |edits|
  {
    if edits != [] { NoneInserts(edits[1..], line); }
  }

  /** The three replacements have no line in common. */
  lemma ReplacementsDiffer(line: string)
    ensures line in HEADER_COMMENT ==> line !in ORIGIN_REPLACEMENT && line !in PILL_REPLACEMENT
    ensures line in ORIGIN_REPLACEMENT ==> line !in PILL_REPLACEMENT
  {
    if line in ORIGIN_REPLACEMENT { OriginFifth(line); }
    if line in PILL_REPLACEMENT { PillFifth(line); }
    assert HEADER_COMMENT[0][4] == '-';
  }

  lemma OriginFifth(line: string)
    requires line in ORIGIN_REPLACEMENT
    ensures |line| > 4 && (line[4] == '/' || line[4] == 'f')
  {
    assert ORIGIN_FUNCTION[4] == 'f';
    assert forall other :: other in ORIGIN_COMMENT ==> other[4] == '/';
  }

  lemma PillFifth(line: string)
    requires line in PILL_REPLACEMENT
    ensures |line| > 4 && line[4] == ' '
  {
  }

  lemma OthersInsertNothingLike(edits: seq<Edit>, k: nat, line: string)
    requires edits == LanEdits() && k < |edits| && line in Inserted(edits[k])
    ensures line !in InsertedBy(edits[..k]) && line !in InsertedBy(edits[k + 1..])
  {
    forall j | 0 <= j < |edits| && j != k ensures line !in Inserted(edits[j]) {
      InsertedByLan(j);
      InsertedByLan(k);
      ReplacementsDiffer(line);
    }
    NoneInserts(edits[..k], line);
    NoneInserts(edits[k + 1..], line);
  }

  lemma HeaderIsUnlike(src: seq<string>, edits: seq<Edit>)
    requires edits == LanEdits() && |edits| == 10 && "  <!-- LOGIN -->" !in src
    ensures Inserted(edits[1]) == HEADER_COMMENT && IsUnlike(src, edits, 1)
  {
    forall line | line in Inserted(edits[1])
      ensures line !in InsertedBy(edits[..1]) && line !in InsertedBy(edits[2..])
    {
      OthersInsertNothingLike(edits, 1, line);
    }
  }

  lemma OriginLinesDiffer()
    ensures Distinct(ORIGIN_REPLACEMENT)
  {
    assert ORIGIN_FUNCTION[4] == 'f';
    assert forall k :: 0 <= k < 5 ==> ORIGIN_COMMENT[k][4] == '/';
    assert ORIGIN_COMMENT[0][7] == 'L' && ORIGIN_COMMENT[1][7] == 'i' && ORIGIN_COMMENT[2][7] == 't'
      && ORIGIN_COMMENT[3][7] == 'd' && ORIGIN_COMMENT[4][7] == 't';
    assert ORIGIN_COMMENT[2][8] == 'y' && ORIGIN_COMMENT[4][8] == 'o';
  }

  lemma OriginIsUnlike(src: seq<string>, edits: seq<Edit>)
    requires edits == LanEdits() && |edits| == 10 && forall line :: line in ORIGIN_REPLACEMENT ==> line !in src
    ensures Inserted(edits[2]) == ORIGIN_REPLACEMENT && IsUnlike(src, edits, 2)
  {
    OriginLinesDiffer();
    forall line | line in Inserted(edits[2])
      ensures line !in InsertedBy(edits[..2]) && line !in InsertedBy(edits[3..])
    {
      OthersInsertNothingLike(edits, 2, line);
    }
  }

  lemma TenEdits()
    ensures |LanEdits()| == 10
  {
  }

  /** The comment that introduces the login dialog stands on the page if no later edit cuts it; and only then, if the
      source does not hold such a comment itself. */
  lemma HeaderStandsIff(source: string)
    requires BuildLan(source).Page?
    ensures |LanEdits()| == 10 && ApplyAll(SourceLines(source), LanEdits()).Ok?
    ensures var spared := Spared(CutLater(SourceLines(source), LanEdits(), 1),
                                 InsertedAt(SourceLines(source), LanEdits(), 1), 1);
            var stands := Stands(Split(BuildLan(source).text), ["  <!-- LOGIN -->"]);
            && (spared ==> stands)
            && ("  <!-- LOGIN -->" !in SourceLines(source) && stands ==> spared)
  {
    TenEdits();
    PageIsItsLines(source);
    var src, edits := SourceLines(source), LanEdits();
    if Spared(CutLater(src, edits, 1), InsertedAt(src, edits, 1), 1) { InsertStands(src, edits, 1); }
    if "  <!-- LOGIN -->" !in src {
      HeaderIsUnlike(src, edits);
      InsertStandsIff(src, edits, 1);
    }
  }

  predicate NoneIn(run: seq<string>, lines: seq<string>) {
    forall line :: line in run ==> line !in lines
  }

  /** So do the six lines that replace the stored origin. */
  lemma OriginStandsIff(source: string)
    requires BuildLan(source).Page?
    ensures |LanEdits()| == 10 && ApplyAll(SourceLines(source), LanEdits()).Ok?
    ensures var spared := Spared(CutLater(SourceLines(source), LanEdits(), 2),
                                 InsertedAt(SourceLines(source), LanEdits(), 2), 6);
            var stands := Stands(Split(BuildLan(source).text), ORIGIN_REPLACEMENT);
            (spared ==> stands) && (NoneIn(ORIGIN_REPLACEMENT, SourceLines(source)) && stands ==> spared)
  {
    TenEdits();
    PageIsItsLines(source);
    var src, edits := SourceLines(source), LanEdits();
    if Spared(CutLater(src, edits, 2), InsertedAt(src, edits, 2), 6) { InsertStands(src, edits, 2); }
    if NoneIn(ORIGIN_REPLACEMENT, src) {
      OriginIsUnlike(src, edits);
      InsertStandsIff(src, edits, 2);
    }
  }

  /** The six lines, word for word. */
  lemma OriginText(page: seq<string>)
    requires Stands(page, ORIGIN_REPLACEMENT)
    ensures Stands(page, [
      "    // " + "LAN build: this page is served by the " + "HMS QR server itself, so the origin",
      "    // " + "is the server. localStorage is " + "deliberately NOT read here - an address",
      "    // " + "typed on the VPS build must never be " + "able to point the LAN page at a",
      "    // " + "different machine, which is exactly the " + "confusion the two builds exist",
      "    // " + "to remove.",
      "    function " + "resolveServerOrigin" + "() { return location.origin; }"])
  {
    var p: nat :| StandsAt(page, ORIGIN_REPLACEMENT, p);
    assert StandsAt(page, [
      "    // " + "LAN build: this page is served by the " + "HMS QR server itself, so the origin",
      "    // " + "is the server. localStorage is " + "deliberately NOT read here - an address",
      "    // " + "typed on the VPS build must never be " + "able to point the LAN page at a",
      "    // " + "different machine, which is exactly the " + "confusion the two builds exist",
      "    // " + "to remove.",
      "    function " + "resolveServerOrigin" + "() { return location.origin; }"], p);
  }

  // ----- the pill replacement always stands -----

  lemma CallIsCutAlone(mid: seq<string>, edits: seq<Edit>, a: nat)
    requires edits == [ReplaceLine("    renderConnection();", [])] && ApplyAll(mid, edits).Ok?
    requires StandsAt(mid, PILL_REPLACEMENT, a)
    ensures Spared(Gone(Itself(|mid|), mid, edits), a, 3)
  {
    var e := edits[0];
    EditIsSplice(mid, e);
    var (x, y) := RunOf(mid, e);
    var origin := Itself(|mid|);
    var next := Apply(mid, e).lines;
    assert Gone(Spliced(origin, x, y, 0), next, edits[1..]) == {};
    assert Gone(origin, mid, edits) == CutFrom(origin, x, y);
    assert origin[x..y] == [x];
    PillIsApart("    renderConnection();");
    forall o | a <= o < a + 3 ensures o !in CutFrom(origin, x, y) {
      assert mid[a..a + 3][o - a] == mid[o];
      assert mid[o] in PILL_REPLACEMENT;
    }
  }

  /** Whatever the source, the page holds the lines that keep the pill visible, one behind the other. */
  lemma PillStands(source: string)
    requires BuildLan(source).Page?
    ensures Stands(Split(BuildLan(source).text), [
      "      " + "// The LAN build is served by the " + "server itself, so the origin is always",
      "      " + "// resolved and the pill never needs hiding.",
      "      " + "pill.hidden = false;"])
  {
    TenEdits();
    PageIsItsLines(source);
    var src, edits := SourceLines(source), LanEdits();
    InStages(src, edits, 9);
    var a, b := InsertedLie(src, edits, 8);
    assert edits[9..] == [ReplaceLine("    renderConnection();", [])];
    CallIsCutAlone(Mid(src, edits, 9), edits[9..], a);
    InsertStands(src, edits, 8);
  }

  // ----- a page in the order of the repository's own -----

  const PILL_MARKER := "      pill.hidden = !serverOrigin;"
  const CALL := "    renderConnection();"
  const DIALOG := "  <!-- CONNECTION / LOGIN -->"
  const STORED_ORIGIN := "    const ORIGIN_KEY = 'hms-server-origin';"

  /** A line at which one of the last seven edits begins to cut. */
  predicate BeginsLateCut(line: string) {
    || line == PILL_MARKER || line == CALL
    || exists name :: name in REMOVED_FUNCTIONS && Defines(name)(line)
  }

  predicate CutsLate(e: Edit) {
    match e
    case RemoveFunction(name) => name in REMOVED_FUNCTIONS
    case ReplaceLine(marker, _) => BeginsLateCut(marker)
    case RemoveBlock(_, _) => false
    case ReplaceBlock(_, _, _) => false
  }

  /** Every line that satisfies p is in front of every line that satisfies q. */
  predicate InFront(lines: seq<string>, p: string -> bool, q: string -> bool) {
    forall i, j :: 0 <= i < |lines| && 0 <= j < |lines| && p(lines[i]) && q(lines[j]) ==> i < j
  }

  /** The connection dialog comes before the stored origin, and that before all that the last edits cut. */
  predicate InPageOrder(lines: seq<string>) {
    InFront(lines, Is(DIALOG), Is(STORED_ORIGIN)) && InFront(lines, Is(STORED_ORIGIN), BeginsLateCut)
  }

  lemma SpliceKeepsInFront(lines: seq<string>, out: seq<string>, a: nat, b: nat, ins: seq<string>, p: string -> bool,
                           q: string -> bool)
    requires IsSplice(lines, out, a, b, ins) && InFront(lines, p, q)
    requires forall line :: line in ins ==> !p(line) && !q(line)
    ensures InFront(out, p, q)
  {
    forall k | a <= k < a + |ins| ensures !p(out[k]) && !q(out[k]) { assert out[k] == ins[k - a]; }
    forall i, j | 0 <= i < |out| && 0 <= j < |out| && p(out[i]) && q(out[j]) ensures i < j {
      var i', j' := if i < a then i else i - |ins| - a + b, if j < a then j else j - |ins| - a + b;
      assert out[i] == lines[i'] && out[j] == lines[j'];
    }
  }

  lemma LateCutIsBehind(lines: seq<string>, e: Edit, m: nat)
    requires Apply(lines, e).Ok? && CutsLate(e) && m <= |lines|
    requires forall i :: 0 <= i < m ==> !BeginsLateCut(lines[i])
    ensures m <= |Apply(lines, e).lines| && Apply(lines, e).lines[..m] == lines[..m]
  {
    EditIsSplice(lines, e);
    var (a, b) := RunOf(lines, e);
    LateCutBegins(lines, e, a);
    SpliceKeepsFront(lines, Apply(lines, e).lines, a, b, Inserted(e), m);
  }

  lemma LateCutBegins(lines: seq<string>, e: Edit, a: nat)
    requires Apply(lines, e).Ok? && CutsLate(e) && a == RunOf(lines, e).0
    ensures a < |lines| && BeginsLateCut(lines[a])
  {
    match e
    case RemoveFunction(name) => assert Defines(name)(lines[a]);
    case ReplaceLine(marker, _) => assert lines[a] == marker;
  }

  lemma SpliceKeepsFront(lines: seq<string>, out: seq<string>, a: nat, b: nat, ins: seq<string>, m: nat)
    requires IsSplice(lines, out, a, b, ins) && m <= a
    ensures m <= |out| && out[..m] == lines[..m]
  {
  }

  /** Lines that no late cut can begin in stay in front. */
  lemma {:induction false} FrontStays(lines: seq<string>, edits: seq<Edit>, m: nat)
    requires ApplyAll(lines, edits).Ok? && m <= |lines|
    requires forall k :: 0 <= k < |edits| ==> CutsLate(edits[k])
    requires forall i :: 0 <= i < m ==> !BeginsLateCut(lines[i])
    ensures m <= |ApplyAll(lines, edits).lines| && ApplyAll(lines, edits).lines[..m] == lines[..m]
    decreases |edits|
  {
    if edits != [] {
      LateCutIsBehind(lines, edits[0], m);
      var out := Apply(lines, edits[0]).lines;
      forall i | 0 <= i < m ensures !BeginsLateCut(out[i]) { assert out[..m][i] == lines[..m][i]; }
      FrontStays(out, edits[1..], m);
    }
  }

  lemma OpeningLines(lines: seq<string>, edits: seq<Edit>, p: string -> bool, q: string -> bool)
    requires edits != [] && ApplyAll(lines, edits).Ok? && Inserted(edits[0]) == [] && InFront(lines, p, q)
    ensures InFront(Mid(lines, edits, 1), p, q)
  {
    NextStage(lines, edits, 0);
    assert edits[..0] == [];
    var mid, next := Mid(lines, edits, 0), Mid(lines, edits, 1);
    EditIsSplice(mid, edits[0]);
    var (a, b) := RunOf(mid, edits[0]);
    SpliceKeepsInFront(mid, next, a, b, [], p, q);
  }

  lemma HeaderBeginsNoLateCut()
    ensures !BeginsLateCut("  <!-- LOGIN -->")
  {
    forall name | name in REMOVED_FUNCTIONS ensures !Defines(name)("  <!-- LOGIN -->") {
      HeaderDefinesNothing(name, "  <!-- LOGIN -->");
    }
  }

  lemma OriginBeginsNoLateCut(line: string)
    requires line in ORIGIN_REPLACEMENT
    ensures !BeginsLateCut(line)
  {
    forall name | name in REMOVED_FUNCTIONS ensures !Defines(name)(line) { OriginDefinesNothing(name, line); }
    OriginIsApart("      pill.hidden = !serverOrigin;");
    OriginIsApart("    renderConnection();");
  }

  lemma InsertIsInFront(before: seq<string>, mid: seq<string>, h: nat, b: nat, line: string, dialog: string,
                        key: string)
    requires IsSplice(before, mid, h, b, [line]) && line != key
    requires h < |before| && before[h] == dialog && InFront(before, Is(dialog), Is(key))
    ensures h < |mid| && mid[h] == line && forall j :: 0 <= j < |mid| && mid[j] == key ==> h < j
  {
    forall j | 0 <= j <= h ensures mid[j] != key {
      if j < h { assert mid[j] == before[j] && Is(dialog)(before[h]); }
    }
  }

  /** Behind the second edit the header stands in front of the stored origin. */
  lemma HeaderIsInFront(lines: seq<string>, edits: seq<Edit>, dialog: string, key: string, line: string)
      returns (h: nat)
    requires |edits| > 2 && ApplyAll(lines, edits).Ok? && Inserted(edits[1]) == [line]
    requires Clears(edits[1], dialog) && line != key && !BeginsLateCut(line)
    requires InFront(Mid(lines, edits, 1), Is(dialog), Is(key)) && InFront(Mid(lines, edits, 1), Is(key), BeginsLateCut)
    ensures h < |Mid(lines, edits, 2)| && Mid(lines, edits, 2)[h] == line
    ensures forall j :: 0 <= j < |Mid(lines, edits, 2)| && Mid(lines, edits, 2)[j] == key ==> h < j
    ensures InFront(Mid(lines, edits, 2), Is(key), BeginsLateCut)
  {
    NextStage(lines, edits, 1);
    var mid, next := Mid(lines, edits, 1), Mid(lines, edits, 2);
    var b;
    h, b := InsertedLie(lines, edits, 1);
    SpliceKeepsInFront(mid, next, h, b, [line], Is(key), BeginsLateCut);
    FirstOfRun(mid, edits[1], dialog);
    InsertIsInFront(mid, next, h, b, line, dialog, key);
  }

  lemma NoLateCutInFront(mid: seq<string>, next: seq<string>, o: nat, b: nat, ins: seq<string>, key: string)
    requires IsSplice(mid, next, o, b, ins) && o < |mid| && mid[o] == key && InFront(mid, Is(key), BeginsLateCut)
    requires forall line :: line in ins ==> !BeginsLateCut(line)
    ensures o + |ins| <= |next| && forall i :: 0 <= i < o + |ins| ==> !BeginsLateCut(next[i])
  {
    assert Is(key)(mid[o]);
    forall i | 0 <= i < o + |ins| ensures !BeginsLateCut(next[i]) {
      if i < o { assert next[i] == mid[i]; } else { assert next[i] == ins[i - o]; }
    }
  }

  /** What the first m lines hold, the page holds. */
  lemma StandsInFront(page: seq<string>, next: seq<string>, m: nat, run: seq<string>, p: nat)
    requires m <= |page| && m <= |next| && page[..m] == next[..m] && p + |run| <= m && StandsAt(next, run, p)
    ensures Stands(page, run)
  {
    assert page[p..p + |run|] == page[..m][p..p + |run|];
    assert next[p..p + |run|] == next[..m][p..p + |run|];
    assert StandsAt(page, run, p);
  }

  lemma StoredOriginIsInFront(lines: seq<string>, edits: seq<Edit>, key: string, h: nat, line: string, ins: seq<string>)
    requires |edits| > 3 && ApplyAll(lines, edits).Ok? && Clears(edits[2], key) && ins == Inserted(edits[2])
    requires h < |Mid(lines, edits, 2)| && Mid(lines, edits, 2)[h] == line
    requires forall j :: 0 <= j < |Mid(lines, edits, 2)| && Mid(lines, edits, 2)[j] == key ==> h < j
    requires InFront(Mid(lines, edits, 2), Is(key), BeginsLateCut)
    requires forall other :: other in ins ==> !BeginsLateCut(other)
    requires forall k :: 0 <= k < |edits[3..]| ==> CutsLate(edits[3..][k])
    ensures Stands(ApplyAll(lines, edits).lines, [line]) && Stands(ApplyAll(lines, edits).lines, ins)
  {
    var mid, next, page := Mid(lines, edits, 2), Mid(lines, edits, 3), ApplyAll(lines, edits).lines;
    NextStage(lines, edits, 2);
    InStages(lines, edits, 3);
    var o, b := InsertedLie(lines, edits, 2);
    FirstOfRun(mid, edits[2], key);
    FrontHolds(mid, next, page, edits[3..], o, b, ins, key, h, line);
  }

  lemma FrontHolds(mid: seq<string>, next: seq<string>, page: seq<string>, later: seq<Edit>, o: nat, b: nat,
                   ins: seq<string>, key: string, h: nat, line: string)
    requires IsSplice(mid, next, o, b, ins) && o < |mid| && mid[o] == key && InFront(mid, Is(key), BeginsLateCut)
    requires forall other :: other in ins ==> !BeginsLateCut(other)
    requires h < o && mid[h] == line && ApplyAll(next, later) == Ok(page)
    requires forall k :: 0 <= k < |later| ==> CutsLate(later[k])
    ensures Stands(page, [line]) && Stands(page, ins)
  {
    var m := o + |ins|;
    NoLateCutInFront(mid, next, o, b, ins, key);
    FrontStays(next, later, m);
    assert StandsAt(next, [line], h) by { assert next[h] == mid[h]; }
    StandsInFront(page, next, m, [line], h);
    StandsInFront(page, next, m, ins, o);
  }

  /** On a page in the repository's order the login comment, the origin lines and the pill lines all stand. */
  lemma PageInOrderStands(source: string)
    requires BuildLan(source).Page? && InPageOrder(SourceLines(source))
    ensures Stands(Split(BuildLan(source).text), ["  <!-- LOGIN -->"])
    ensures Stands(Split(BuildLan(source).text), ORIGIN_REPLACEMENT)
    ensures Stands(Split(BuildLan(source).text), PILL_REPLACEMENT)
  {
    PillStands(source);
    TenEdits();
    PageIsItsLines(source);
    var src, edits := SourceLines(source), LanEdits();
    OpeningLines(src, edits, Is(DIALOG), Is(STORED_ORIGIN));
    OpeningLines(src, edits, Is(STORED_ORIGIN), BeginsLateCut);
    HeaderBeginsNoLateCut();
    var h := HeaderIsInFront(src, edits, DIALOG, STORED_ORIGIN, "  <!-- LOGIN -->");
    forall line | line in ORIGIN_REPLACEMENT ensures !BeginsLateCut(line) { OriginBeginsNoLateCut(line); }
    LateEdits(edits);
    StoredOriginIsInFront(src, edits, STORED_ORIGIN, h, "  <!-- LOGIN -->", ORIGIN_REPLACEMENT);
  }

  lemma LateEdits(edits: seq<Edit>)
    requires edits == LanEdits() && |edits| == 10
    ensures forall k :: 0 <= k < 7 ==> CutsLate(edits[3..][k])
  {
    forall k | 0 <= k < 7 ensures CutsLate(edits[3..][k]) {
      if k < 5 { assert edits[3 + k] == Removals(REMOVED_FUNCTIONS)[k]; }
    }
  }

  // ----- an inserted line that does not stand -----

  lemma {:induction false} NoBraces(s: string)
    requires '{' !in s && '}' !in s
    ensures Braces(s) == 0
  {
    if s != "" { NoBraces(s[1..]); }
  }

  lemma {:induction false} BracesAppend(s: string, t: string)
    ensures Braces(s + t) == Braces(s) + Braces(t)
  {
    if s == "" {
      assert s + t == t;
    } else {
      assert (s + t)[1..] == s[1..] + t;
      BracesAppend(s[1..], t);
    }
  }

  lemma {:induction false} ClosesAt(lines: seq<string>, a: nat, index: nat, k: nat)
    requires a < index <= k < |lines| && Braces(lines[k]) == -1
    requires forall j :: index <= j < k ==> Braces(lines[j]) == 0
    ensures FindClose(lines, a, index, 1) == At(k)
    decreases k - index
  {
    if index < k { ClosesAt(lines, a, index + 1, k); }
  }

  /** A function is cut with all that its braces enclose. */
  lemma FunctionCutAt(lines: seq<string>, name: string, a: nat, k: nat)
    requires OnlyAt(lines, Defines(name), a) && a < k < |lines| && PastBlank(lines, k + 1) == k + 1
    requires Braces(lines[a]) == 1 && Braces(lines[k]) == -1
    requires forall j :: a < j < k ==> Braces(lines[j]) == 0
    ensures CutFunction(lines, name) == Ok(lines[..a] + lines[k + 1..])
  {
    FoundIff(lines, Defines(name), a);
    ClosesAt(lines, a, a + 1, k);
    assert FindClose(lines, a, a, 0) == At(k);
    CutRunIsSplice(lines, a, k, []);
    assert lines[..a] + [] == lines[..a];
  }

  function Def(name: string): string {
    Prefix(name) + ") {"
  }

  lemma DefOpens(name: string)
    requires name in REMOVED_FUNCTIONS
    ensures Braces(Def(name)) == 1 && Defines(name)(Def(name))
  {
    var front := Prefix(name) + ") ";
    assert '{' !in name && '}' !in name;
    assert '{' !in "    function " && '}' !in "    function ";
    NoBraces(front);
    assert Def(name) == front + "{";
    BracesAppend(front, "{");
  }

  lemma Closes()
    ensures Braces("    }") == -1
  {
    NoBraces("    ");
    BracesAppend("    ", "}");
  }

  /** A function is cut with the lines that it encloses. */
  lemma EnclosedIsCut(front: seq<string>, name: string, run: seq<string>, rest: seq<string>)
    requires name in REMOVED_FUNCTIONS && Undefined(front, name) && Undefined(run, name) && Undefined(rest, name)
    requires (forall line :: line in run ==> Braces(line) == 0) && (rest == [] || rest[0] != "")
    ensures CutFunction(front + ([Def(name)] + (run + (["    }"] + rest))), name) == Ok(front + rest)
  {
    var lines := front + ([Def(name)] + (run + (["    }"] + rest)));
    var a := |front|;
    var k := a + |run| + 1;
    Closes();
    DefOpens(name);
    RemovedPrefix(name);
    forall j | 0 <= j < |lines| && j != a ensures !Defines(name)(lines[j]) && (a < j < k ==> Braces(lines[j]) == 0) {
      LineOfParts(lines, front, [Def(name)], run, ["    }"], rest, j);
    }
    assert lines[a] == Def(name) && lines[k] == "    }" && lines[k + 1..] == rest && lines[..a] == front;
    FunctionCutAt(lines, name, a, k);
  }

  lemma LineOfParts(lines: seq<string>, a: seq<string>, b: seq<string>, c: seq<string>, d: seq<string>, e: seq<string>,
                    j: nat)
    requires lines == a + (b + (c + (d + e))) && j < |lines| && |b| == 1 == |d|
    ensures lines[j] == if j < |a| then a[j] else if j == |a| then b[0] else if j < |a| + 1 + |c| then c[j - |a| - 1]
                        else if j == |a| + 1 + |c| then d[0] else e[j - |a| - |c| - 2]
  {
  }

  /** The header comment is cut with the function that encloses it, whatever comes before and behind. */
  lemma EnclosedHeaderIsCut(front: seq<string>, name: string, header: seq<string>, rest: seq<string>)
    requires name in REMOVED_FUNCTIONS && Undefined(front, name) && Undefined(rest, name)
    requires header == ["  <!-- LOGIN -->"] && (rest == [] || rest[0] != "")
    ensures CutFunction(front + ([Def(name)] + (header + (["    }"] + rest))), name) == Ok(front + rest)
  {
    HeaderInside(header, name);
    EnclosedIsCut(front, name, header, rest);
  }

  lemma HeaderInside(run: seq<string>, name: string)
    requires run == HEADER_COMMENT && name in REMOVED_FUNCTIONS
    ensures Undefined(run, name) && forall line :: line in run ==> Braces(line) == 0
  {
    forall line | line in run ensures !Defines(name)(line) && Braces(line) == 0 {
      HeaderDefinesNothing(name, line);
      NoBraces(line);
    }
  }
}
