/** The A1-reference scanner and the formula translator, on the characters of a formula.

    The scanner is the pattern `(?<![A-Z0-9_])(\$?)([A-Z]{1,3})(\$?)(\d+)(?![A-Z0-9_])`, matched
    without regard to letter case from left to right; text is ASCII.
 */
module Translation {
  import opened ColumnNames

  /** A piece of a scanned formula: one character of plain text, or one reference. */
  datatype Token =
    | Chr(c: char)
    | Reference(colLock: bool, letters: string, rowLock: bool, digits: string)

  const BROKEN := "#REF!"

  predicate IsWord(c: char) {
    IsLetter(c) || IsDigit(c) || c == '_'
  }

  /** The text does not continue a word. */
  predicate EndsWord(s: string) {
    s == "" || !IsWord(s[0])
  }

  predicate WellFormed(t: Token) {
    t.Reference? ==> (
      && 1 <= |t.letters| <= 3 && AllLetters(t.letters)
      && t.digits != "" && AllDigits(t.digits))
  }

  // ----- printing -----

  function Dollar(lock: bool): string {
    if lock then "$" else ""
  }

  function Address(colLock: bool, letters: string, rowLock: bool, digits: string, rest: string): string {
    Dollar(colLock) + (letters + (Dollar(rowLock) + (digits + rest)))
  }

  /** The text of a token in front of the rest of the formula. */
  function Show(t: Token, rest: string): string {
    match t
    case Chr(c) => [c] + rest
    case Reference(colLock, letters, rowLock, digits) => Address(colLock, letters, rowLock, digits, rest)
  }

  function Render(ts: seq<Token>): string {
    if ts == [] then "" else Show(ts[0], Render(ts[1..]))
  }

  // ----- scanning -----

  function LetterRun(s: string): (n: nat)
    ensures n <= |s|
  {
    if s == "" || !IsLetter(s[0]) then 0 else 1 + LetterRun(s[1..])
  }

  function DigitRun(s: string): (n: nat)
    ensures n <= |s|
  {
    if s == "" || !IsDigit(s[0]) then 0 else 1 + DigitRun(s[1..])
  }

  lemma {:induction false} RunOfLetters(s: string)
    ensures AllLetters(s[..LetterRun(s)])
  {
    if s != "" && IsLetter(s[0]) {
      RunOfLetters(s[1..]);
      assert s[..LetterRun(s)] == [s[0]] + s[1..][..LetterRun(s[1..])];
    }
  }

  lemma {:induction false} RunOfDigits(s: string)
    ensures AllDigits(s[..DigitRun(s)])
  {
    if s != "" && IsDigit(s[0]) {
      RunOfDigits(s[1..]);
      assert s[..DigitRun(s)] == [s[0]] + s[1..][..DigitRun(s[1..])];
    }
  }

  function Unlocked(s: string): (t: string)
    ensures s == Dollar(Locked(s)) + t
  {
    if Locked(s) then s[1..] else s
  }

  predicate Locked(s: string) {
    s != "" && s[0] == '$'
  }

  datatype Tail = NoTail | Tail(rowLock: bool, digits: string, rest: string)

  /** Behind the letters: an optional lock, digits, and then no word character. */
  function MatchTail(s: string): (m: Tail)
    ensures m.Tail? ==> |m.rest| < |s|
  {
    var v := Unlocked(s);
    var n := DigitRun(v);
    if n >= 1 && EndsWord(v[n..]) then Tail(Locked(s), v[..n], v[n..]) else NoTail
  }

  lemma TailIsShown(s: string)
    requires MatchTail(s).Tail?
    ensures var m := MatchTail(s);
            && m.digits != "" && AllDigits(m.digits) && EndsWord(m.rest)
            && s == Dollar(m.rowLock) + (m.digits + m.rest)
  {
    var v := Unlocked(s);
    RunOfDigits(v);
    assert v == v[..DigitRun(v)] + v[DigitRun(v)..];
  }

  datatype Match = NoMatch | Match(token: Token, rest: string)

  /** Whether a reference starts at the front of s, the character before it being no word character. */
  function MatchFront(s: string): (m: Match)
    ensures m.Match? ==> m.token.Reference? && WellFormed(m.token) && |m.rest| < |s|
  {
    var t := Unlocked(s);
    var n := LetterRun(t);
    if 1 <= n <= 3 then
      match MatchTail(t[n..])
      case Tail(rowLock, digits, rest) =>
        RunOfLetters(t);
        TailIsShown(t[n..]);
        Match(Reference(Locked(s), t[..n], rowLock, digits), rest)
      case NoTail => NoMatch
    else NoMatch
  }

  lemma MatchIsShown(s: string)
    requires MatchFront(s).Match?
    ensures s == Show(MatchFront(s).token, MatchFront(s).rest) && EndsWord(MatchFront(s).rest)
  {
    var t := Unlocked(s);
    var n := LetterRun(t);
    var tail := MatchTail(t[n..]);
    TailIsShown(t[n..]);
    assert MatchFront(s) == Match(Reference(Locked(s), t[..n], tail.rowLock, tail.digits), tail.rest);
    PartsMakeAddress(s, t, n, tail);
  }

  lemma PartsMakeAddress(s: string, t: string, n: nat, tail: Tail)
    requires n <= |t| && tail.Tail?
    requires s == Dollar(Locked(s)) + t && t[n..] == Dollar(tail.rowLock) + (tail.digits + tail.rest)
    ensures s == Address(Locked(s), t[..n], tail.rowLock, tail.digits, tail.rest)
  {
    assert t == t[..n] + t[n..];
  }

  function Scan(afterWord: bool, s: string): (ts: seq<Token>)
    ensures forall i :: 0 <= i < |ts| ==> WellFormed(ts[i])
    decreases |s|
  {
    if s == "" then []
    else
      var m := MatchFront(s);
      if !afterWord && m.Match? then [m.token] + Scan(true, m.rest)
      else [Chr(s[0])] + Scan(IsWord(s[0]), s[1..])
  }

  // ----- translating -----

  function ColumnOf(t: Token): int
    requires t.Reference? && WellFormed(t)
  {
    Ordinal(Upper(t.letters)) - 1
  }

  function RowOf(t: Token): int
    requires t.Reference? && WellFormed(t)
  {
    Number(t.digits) - 1
  }

  function MovedColumn(t: Token, dc: int): int
    requires t.Reference? && WellFormed(t)
  {
    if t.colLock then ColumnOf(t) else ColumnOf(t) + dc
  }

  function MovedRow(t: Token, dr: int): int
    requires t.Reference? && WellFormed(t)
  {
    if t.rowLock then RowOf(t) else RowOf(t) + dr
  }

  /** The reference still names a cell of the sheet, and its column still has at most three letters. */
  predicate Stays(t: Token, dr: int, dc: int)
    requires WellFormed(t)
  {
    t.Reference? ==> MovedRow(t, dr) >= 0 && 0 <= MovedColumn(t, dc) < 18278
  }

  /** The reference leaves the sheet. */
  predicate Breaks(t: Token, dr: int, dc: int)
    requires t.Reference? && WellFormed(t)
  {
    MovedColumn(t, dc) < 0 || MovedRow(t, dr) < 0
  }

  /** The replacement of one match, in front of the rest of the formula. */
  function Replace(t: Token, dr: int, dc: int, rest: string): string
    requires WellFormed(t)
  {
    if t.Chr? then [t.c] + rest
    else if Breaks(t, dr, dc) then BROKEN + rest
    else Address(t.colLock, Name(MovedColumn(t, dc)), t.rowLock, Decimal(MovedRow(t, dr) + 1), rest)
  }

  function ReplaceAll(ts: seq<Token>, dr: int, dc: int): string
    requires forall i :: 0 <= i < |ts| ==> WellFormed(ts[i])
  {
    if ts == [] then "" else Replace(ts[0], dr, dc, ReplaceAll(ts[1..], dr, dc))
  }

  /** _translated_formula */
  function Translate(formula: string, dr: int, dc: int): string {
    ReplaceAll(Scan(false, formula), dr, dc)
  }

  /** Every reference of the formula stays on the sheet when moved. */
  ghost predicate AllStay(formula: string, dr: int, dc: int) {
    forall i :: 0 <= i < |Scan(false, formula)| ==> Stays(Scan(false, formula)[i], dr, dc)
  }

  // ----- the scanner reads its own output back -----

  /** The token sequences the scanner produces: each reference stands between non-word characters, and
      no reference starts at a plain character. */
  ghost predicate Scanned(afterWord: bool, ts: seq<Token>)
    decreases |ts|
  {
    ts == [] ||
    match ts[0]
    case Chr(c) => (afterWord || MatchFront(Render(ts)).NoMatch?) && Scanned(IsWord(c), ts[1..])
    case Reference(_, _, _, _) =>
      !afterWord && WellFormed(ts[0]) && EndsWord(Render(ts[1..])) && Scanned(true, ts[1..])
  }

  lemma {:induction false} LetterRunOf(letters: string, rest: string)
    requires AllLetters(letters) && (rest == "" || !IsLetter(rest[0]))
    ensures LetterRun(letters + rest) == |letters|
    decreases |letters|
  {
    if letters == "" {
      assert letters + rest == rest;
    } else {
      assert (letters + rest)[1..] == letters[1..] + rest;
      LetterRunOf(letters[1..], rest);
    }
  }

  lemma {:induction false} DigitRunOf(digits: string, rest: string)
    requires AllDigits(digits) && (rest == "" || !IsDigit(rest[0]))
    ensures DigitRun(digits + rest) == |digits|
    decreases |digits|
  {
    if digits == "" {
      assert digits + rest == rest;
    } else {
      assert (digits + rest)[1..] == digits[1..] + rest;
      DigitRunOf(digits[1..], rest);
    }
  }

  lemma MatchTailShown(rowLock: bool, digits: string, rest: string)
    requires digits != "" && AllDigits(digits) && EndsWord(rest)
    ensures MatchTail(Dollar(rowLock) + (digits + rest)) == Tail(rowLock, digits, rest)
  {
    var v := digits + rest;
    assert Unlocked(Dollar(rowLock) + v) == v;
    DigitRunOf(digits, rest);
    assert v[..|digits|] == digits && v[|digits|..] == rest;
  }

  /** A printed reference followed by a non-word character is matched as exactly that reference. */
  lemma MatchShown(t: Token, rest: string)
    requires t.Reference? && WellFormed(t) && EndsWord(rest)
    ensures MatchFront(Show(t, rest)) == Match(t, rest)
  {
    var u := Dollar(t.rowLock) + (t.digits + rest);
    LettersShown(t.letters, u);
    MatchTailShown(t.rowLock, t.digits, rest);
    UnlockedShown(t.colLock, t.letters + u);
  }

  lemma LettersShown(letters: string, u: string)
    requires letters != "" && AllLetters(letters) && (u == "" || !IsLetter(u[0]))
    ensures var w := letters + u;
            !Locked(w) && LetterRun(w) == |letters| && w[..|letters|] == letters && w[|letters|..] == u
  {
    LetterRunOf(letters, u);
  }

  lemma UnlockedShown(lock: bool, w: string)
    requires !Locked(w)
    ensures Unlocked(Dollar(lock) + w) == w && Locked(Dollar(lock) + w) == lock
  {
  }

  lemma ScannedCons(afterWord: bool, t: Token, ts: seq<Token>)
    requires Scanned(t.Reference? || IsWord(t.c), ts)
    requires t.Chr? ==> afterWord || MatchFront([t.c] + Render(ts)).NoMatch?
    requires t.Reference? ==> !afterWord && WellFormed(t) && EndsWord(Render(ts))
    ensures Scanned(afterWord, [t] + ts) && Render([t] + ts) == Show(t, Render(ts))
  {
    assert ([t] + ts)[1..] == ts;
  }

  /** Scanning loses nothing. */
  lemma {:induction false} RenderScan(afterWord: bool, s: string)
    ensures Render(Scan(afterWord, s)) == s && Scanned(afterWord, Scan(afterWord, s))
    decreases |s|
  {
    if s != "" {
      var ts := Scan(afterWord, s);
      var rest := if ts[0].Reference? then MatchFront(s).rest else s[1..];
      var word := ts[0].Reference? || IsWord(ts[0].c);
      assert ts == [ts[0]] + Scan(word, rest);
      RenderScan(word, rest);
      if ts[0].Reference? { MatchIsShown(s); }
      assert Show(ts[0], rest) == s;
      ScannedCons(afterWord, ts[0], Scan(word, rest));
    }
  }

  /** Scanning a printed token sequence gives it back. */
  lemma {:induction false} ScanRender(afterWord: bool, ts: seq<Token>)
    requires Scanned(afterWord, ts)
    ensures Scan(afterWord, Render(ts)) == ts
    decreases |ts|
  {
    if ts != [] {
      assert ts == [ts[0]] + ts[1..];
      if ts[0].Chr? {
        ScanRender(IsWord(ts[0].c), ts[1..]);
        assert Render(ts)[1..] == Render(ts[1..]);
      } else {
        MatchShown(ts[0], Render(ts[1..]));
        ScanRender(true, ts[1..]);
      }
    }
  }

  // ----- changing references does not change what the scanner finds -----

  const BROKEN_TOKENS := [Chr('#'), Chr('R'), Chr('E'), Chr('F'), Chr('!')]

  predicate SameKind(t: Token, u: Token) {
    if t.Chr? then u == t
    else u.Reference? && u.colLock == t.colLock && u.rowLock == t.rowLock && WellFormed(u)
  }

  /** References have been given other letters and digits, or been replaced by the broken reference where
      no `$` follows directly. */
  ghost predicate Becomes(ts: seq<Token>, us: seq<Token>)
    decreases |ts|
  {
    if ts == [] then us == []
    else
      || (us != [] && SameKind(ts[0], us[0]) && Becomes(ts[1..], us[1..]))
      || (ts[0].Reference? && NoDollar(ts[1..]) && BROKEN_TOKENS <= us && Becomes(ts[1..], us[5..]))
  }

  predicate NoDollar(ts: seq<Token>) {
    ts != [] ==> ts[0] != Chr('$')
  }

  /** Some digits (or none, if some came before) and then no word character. */
  predicate DigitsEnd(s: string, some: bool) {
    if s != "" && IsDigit(s[0]) then DigitsEnd(s[1..], true) else some && EndsWord(s)
  }

  /** Letters to a total of one to three, n of them already seen, then a matching tail. */
  predicate LettersEnd(s: string, n: nat) {
    if s != "" && IsLetter(s[0]) then LettersEnd(s[1..], n + 1)
    else 1 <= n <= 3 && DigitsEnd(Unlocked(s), false)
  }

  lemma {:induction false} DigitsEndIff(s: string, some: bool)
    ensures DigitsEnd(s, some) <==> (some || DigitRun(s) >= 1) && EndsWord(s[DigitRun(s)..])
  {
    if s != "" && IsDigit(s[0]) {
      DigitsEndIff(s[1..], true);
      assert s[1..][DigitRun(s[1..])..] == s[DigitRun(s)..];
    }
  }

  lemma TailIff(s: string)
    ensures DigitsEnd(Unlocked(s), false) <==> MatchTail(s).Tail?
  {
    DigitsEndIff(Unlocked(s), false);
  }

  lemma {:induction false} LettersEndIff(s: string, n: nat)
    ensures LettersEnd(s, n) <==> 1 <= n + LetterRun(s) <= 3 && MatchTail(s[LetterRun(s)..]).Tail?
  {
    if s != "" && IsLetter(s[0]) {
      LettersEndIff(s[1..], n + 1);
      assert s[1..][LetterRun(s[1..])..] == s[LetterRun(s)..];
    } else {
      assert s[0..] == s;
      TailIff(s);
    }
  }

  lemma {:induction false} SameDigitsEnd(afterWord: bool, ts: seq<Token>, us: seq<Token>, some: bool)
    requires Scanned(afterWord, ts) && Becomes(ts, us) && (some ==> afterWord)
    ensures DigitsEnd(Render(ts), some) == DigitsEnd(Render(us), some)
    decreases |ts|
  {
    if ts != [] && ts[0].Chr? {
      assert Render(ts)[1..] == Render(ts[1..]) && Render(us)[1..] == Render(us[1..]);
      if IsDigit(ts[0].c) { SameDigitsEnd(true, ts[1..], us[1..], true); }
    }
  }

  lemma {:induction false} SameLettersEnd(ts: seq<Token>, us: seq<Token>, n: nat)
    requires Scanned(true, ts) && Becomes(ts, us)
    ensures LettersEnd(Render(ts), n) == LettersEnd(Render(us), n)
    decreases |ts|
  {
    if ts != [] {
      assert Render(ts)[1..] == Render(ts[1..]) && Render(us)[1..] == Render(us[1..]);
      if IsLetter(ts[0].c) {
        SameLettersEnd(ts[1..], us[1..], n + 1);
      } else if ts[0].c == '$' {
        SameDigitsEnd(false, ts[1..], us[1..], false);
      } else {
        SameDigitsEnd(true, ts, us, false);
      }
    }
  }

  lemma NoMatchIff(s: string)
    ensures MatchFront(s).NoMatch? <==> !LettersEnd(Unlocked(s), 0)
  {
    LettersEndIff(Unlocked(s), 0);
  }

  /** No reference starts at a plain character of us, because none starts there in ts. */
  lemma StillNoMatch(ts: seq<Token>, us: seq<Token>)
    requires ts != [] && ts[0].Chr? && Becomes(ts, us) && Scanned(false, ts)
    ensures MatchFront(Render(us)).NoMatch?
  {
    var s, s' := Render(ts), Render(us);
    NoMatchIff(s);
    NoMatchIff(s');
    assert s[1..] == Render(ts[1..]) && s'[1..] == Render(us[1..]);
    if ts[0].c == '$' {
      StillNoMatchAfterDollar(ts[1..], us[1..]);
    } else if IsLetter(ts[0].c) {
      SameLettersEnd(ts[1..], us[1..], 1);
    }
  }

  lemma StillNoMatchAfterDollar(ts: seq<Token>, us: seq<Token>)
    requires Becomes(ts, us) && Scanned(false, ts) && !LettersEnd(Render(ts), 0)
    ensures !LettersEnd(Render(us), 0)
  {
    if ts != [] && ts[0].Chr? {
      assert Render(ts)[1..] == Render(ts[1..]) && Render(us)[1..] == Render(us[1..]);
      if IsLetter(ts[0].c) { SameLettersEnd(ts[1..], us[1..], 1); }
    } else if ts != [] && !ts[0].colLock {
      MatchShown(ts[0], Render(ts[1..]));
      LettersEndIff(Render(ts), 0);
    }
  }

  lemma NoMatchInBroken(rest: string)
    ensures MatchFront("REF" + (['!'] + rest)).NoMatch?
  {
    var s := "REF" + (['!'] + rest);
    LetterRunOf("REF", ['!'] + rest);
    assert s[3..] == ['!'] + rest;
  }

  /** The broken reference is plain text to the scanner. */
  lemma BrokenIsScanned(ts: seq<Token>)
    requires Scanned(false, ts)
    ensures Scanned(false, BROKEN_TOKENS + ts)
  {
    var bang := [Chr('!')] + ts;
    ScannedCons(true, Chr('!'), ts);
    LettersAreScanned(bang, Render(ts));
    var letters := [Chr('R')] + ([Chr('E')] + ([Chr('F')] + bang));
    NoMatchAt(['#'] + Render(letters));
    ScannedCons(false, Chr('#'), letters);
    BrokenTokensAre(ts);
  }

  lemma BrokenTokensAre(ts: seq<Token>)
    ensures BROKEN_TOKENS + ts == [Chr('#')] + ([Chr('R')] + ([Chr('E')] + ([Chr('F')] + ([Chr('!')] + ts))))
  {
  }

  lemma NoMatchAt(s: string)
    requires s != "" && s[0] != '$' && !IsLetter(s[0])
    ensures MatchFront(s).NoMatch?
  {
  }

  lemma LettersAreScanned(bang: seq<Token>, rest: string)
    requires Scanned(true, bang) && Render(bang) == ['!'] + rest
    ensures Scanned(false, [Chr('R')] + ([Chr('E')] + ([Chr('F')] + bang)))
  {
    ScannedCons(true, Chr('F'), bang);
    ScannedCons(true, Chr('E'), [Chr('F')] + bang);
    assert ['R'] + (['E'] + (['F'] + Render(bang))) == "REF" + Render(bang);
    NoMatchInBroken(rest);
    ScannedCons(false, Chr('R'), [Chr('E')] + ([Chr('F')] + bang));
  }

  lemma RenderBroken(ts: seq<Token>)
    ensures Render(BROKEN_TOKENS + ts) == BROKEN + Render(ts)
  {
    var us := BROKEN_TOKENS + ts;
    assert us[1..][1..] == us[2..] && us[2..][1..] == us[3..] && us[3..][1..] == us[4..] && us[4..][1..] == ts;
    assert Render(us[4..]) == ['!'] + Render(ts);
    assert Render(us[3..]) == ['F'] + Render(us[4..]);
    assert Render(us[2..]) == ['E'] + Render(us[3..]);
    assert Render(us[1..]) == ['R'] + Render(us[2..]);
  }

  lemma {:induction false} BecomesScanned(afterWord: bool, ts: seq<Token>, us: seq<Token>)
    requires Scanned(afterWord, ts) && Becomes(ts, us)
    ensures Scanned(afterWord, us)
    decreases |ts|
  {
    if ts != [] {
      if ts[0].Chr? {
        if !afterWord { StillNoMatch(ts, us); }
        BecomesScanned(IsWord(ts[0].c), ts[1..], us[1..]);
      } else if us != [] && SameKind(ts[0], us[0]) && Becomes(ts[1..], us[1..]) {
        BecomesScanned(true, ts[1..], us[1..]);
      } else {
        BecomesScanned(true, ts[1..], us[5..]);
        assert us == BROKEN_TOKENS + us[5..];
        BrokenIsScanned(us[5..]);
      }
    }
  }

  // ----- translating twice -----

  /** u is t moved: the same locks around the new coordinates. */
  ghost predicate IsMoved(t: Token, u: Token, dr: int, dc: int)
    requires WellFormed(t)
  {
    SameKind(t, u) &&
    (t.Reference? ==> RowOf(u) == MovedRow(t, dr) && ColumnOf(u) == MovedColumn(t, dc) && AllUpper(u.letters))
  }

  /** The reference to a cell, as it is printed. */
  function ReferenceTo(colLock: bool, col: nat, rowLock: bool, row: nat): (t: Token)
    requires col < 18278
    ensures t.Reference? && WellFormed(t) && RowOf(t) == row && ColumnOf(t) == col && AllUpper(t.letters)
  {
    NameIsUpper(col);
    ThreeLetters(col);
    OrdinalOfName(col);
    UpperOfUpper(Name(col));
    NumberOfDecimal(row + 1);
    Reference(colLock, Name(col), rowLock, Decimal(row + 1))
  }

  /** The token a staying reference becomes. */
  function Moved(t: Token, dr: int, dc: int): (u: Token)
    requires WellFormed(t) && Stays(t, dr, dc)
    ensures IsMoved(t, u, dr, dc)
  {
    if t.Chr? then t else ReferenceTo(t.colLock, MovedColumn(t, dc), t.rowLock, MovedRow(t, dr))
  }

  /** The reference stays, or breaks: its column does not grow beyond three letters. */
  predicate Survives(t: Token, dr: int, dc: int)
    requires WellFormed(t)
  {
    t.Reference? ==> MovedColumn(t, dc) < 18278 || MovedRow(t, dr) < 0
  }

  /** The tokens of the translated formula, for a safe move. */
  function MovedAll(ts: seq<Token>, dr: int, dc: int): (us: seq<Token>)
    requires forall i :: 0 <= i < |ts| ==> WellFormed(ts[i])
    ensures forall i :: 0 <= i < |us| ==> WellFormed(us[i])
  {
    if ts == [] then []
    else (if Stays(ts[0], dr, dc) then [Moved(ts[0], dr, dc)] else BROKEN_TOKENS) + MovedAll(ts[1..], dr, dc)
  }

  /** The move neither lengthens a column beyond three letters, nor breaks a reference with a `$` directly
      behind it. */
  ghost predicate Safe(ts: seq<Token>, dr: int, dc: int) {
    forall i :: 0 <= i < |ts| ==>
      && WellFormed(ts[i]) && Survives(ts[i], dr, dc)
      && (Stays(ts[i], dr, dc) || NoDollar(ts[i + 1..]))
  }

  lemma SafeRest(ts: seq<Token>, dr: int, dc: int)
    requires ts != [] && Safe(ts, dr, dc)
    ensures Safe(ts[1..], dr, dc)
  {
    forall i | 0 <= i < |ts[1..]|
      ensures
        && WellFormed(ts[1..][i]) && Survives(ts[1..][i], dr, dc)
        && (Stays(ts[1..][i], dr, dc) || NoDollar(ts[1..][i + 1..]))
    {
      assert ts[1..][i] == ts[i + 1] && ts[1..][i + 1..] == ts[i + 1 + 1..];
    }
  }

  lemma {:induction false} MovedAllBecomes(ts: seq<Token>, dr: int, dc: int)
    requires Safe(ts, dr, dc)
    ensures Becomes(ts, MovedAll(ts, dr, dc))
    decreases |ts|
  {
    if ts != [] {
      SafeRest(ts, dr, dc);
      MovedAllBecomes(ts[1..], dr, dc);
      var us := MovedAll(ts, dr, dc);
      if Stays(ts[0], dr, dc) {
        assert us[1..] == MovedAll(ts[1..], dr, dc);
      } else {
        assert us[5..] == MovedAll(ts[1..], dr, dc);
      }
    }
  }

  lemma {:induction false} RenderMoved(ts: seq<Token>, dr: int, dc: int)
    requires Safe(ts, dr, dc)
    ensures Render(MovedAll(ts, dr, dc)) == ReplaceAll(ts, dr, dc)
    decreases |ts|
  {
    if ts != [] {
      SafeRest(ts, dr, dc);
      RenderMoved(ts[1..], dr, dc);
      var us := MovedAll(ts[1..], dr, dc);
      if Stays(ts[0], dr, dc) {
        assert ([Moved(ts[0], dr, dc)] + us)[1..] == us;
      } else {
        RenderBroken(us);
      }
    }
  }

  /** Scanning a translated formula finds exactly the moved references, in the same places. */
  lemma ScanTranslated(formula: string, dr: int, dc: int)
    requires Safe(Scan(false, formula), dr, dc)
    ensures Scan(false, Translate(formula, dr, dc)) == MovedAll(Scan(false, formula), dr, dc)
  {
    var ts := Scan(false, formula);
    RenderScan(false, formula);
    RenderMoved(ts, dr, dc);
    MovedAllBecomes(ts, dr, dc);
    BecomesScanned(false, ts, MovedAll(ts, dr, dc));
    ScanRender(false, MovedAll(ts, dr, dc));
  }

  lemma ReplaceMoved(t: Token, u: Token, dr: int, dc: int, dr': int, dc': int, rows: int, cols: int, rest: string)
    requires WellFormed(t) && IsMoved(t, u, dr, dc) && rows == dr + dr' && cols == dc + dc'
    ensures Replace(u, dr', dc', rest) == Replace(t, rows, cols, rest)
  {
    if t.Reference? {
      assert MovedRow(u, dr') == MovedRow(t, rows);
      assert MovedColumn(u, dc') == MovedColumn(t, cols);
    }
  }

  /** What the first move breaks is also broken by both moves together. */
  ghost predicate BrokenForGood(ts: seq<Token>, dr: int, dc: int, rows: int, cols: int) {
    forall i :: 0 <= i < |ts| && WellFormed(ts[i]) && !Stays(ts[i], dr, dc) ==> Breaks(ts[i], rows, cols)
  }

  lemma ReplaceBroken(ts: seq<Token>, dr: int, dc: int)
    requires forall i :: 0 <= i < |ts| ==> WellFormed(ts[i])
    ensures ReplaceAll(BROKEN_TOKENS + ts, dr, dc) == BROKEN + ReplaceAll(ts, dr, dc)
  {
    var us := BROKEN_TOKENS + ts;
    assert us[1..][1..] == us[2..] && us[2..][1..] == us[3..] && us[3..][1..] == us[4..] && us[4..][1..] == ts;
    assert ReplaceAll(us[4..], dr, dc) == ['!'] + ReplaceAll(ts, dr, dc);
    assert ReplaceAll(us[3..], dr, dc) == ['F'] + ReplaceAll(us[4..], dr, dc);
    assert ReplaceAll(us[2..], dr, dc) == ['E'] + ReplaceAll(us[3..], dr, dc);
    assert ReplaceAll(us[1..], dr, dc) == ['R'] + ReplaceAll(us[2..], dr, dc);
  }

  lemma ReplaceInFront(t: Token, dr: int, dc: int, rest: string)
    requires WellFormed(t)
    ensures Replace(t, dr, dc, rest) == Replace(t, dr, dc, "") + rest
  {
    if t.Reference? {
      assert BROKEN + "" == BROKEN;
      AddressInFront(t.colLock, if Breaks(t, dr, dc) then "" else Name(MovedColumn(t, dc)), t.rowLock,
                     if Breaks(t, dr, dc) then "" else Decimal(MovedRow(t, dr) + 1), rest);
    }
  }

  lemma AddressInFront(colLock: bool, letters: string, rowLock: bool, digits: string, rest: string)
    ensures Address(colLock, letters, rowLock, digits, rest) == Address(colLock, letters, rowLock, digits, "") + rest
  {
    assert digits + "" == digits;
  }

  /** Equal pieces in front cancel. */
  lemma SameFront(t: Token, dr: int, dc: int, x: string, y: string)
    requires WellFormed(t)
    ensures Replace(t, dr, dc, x) == Replace(t, dr, dc, y) <==> x == y
  {
    ReplaceInFront(t, dr, dc, x);
    ReplaceInFront(t, dr, dc, y);
    var front := Replace(t, dr, dc, "");
    assert (front + x)[|front|..] == x && (front + y)[|front|..] == y;
  }

  lemma BrokenDiffers(t: Token, dr: int, dc: int, x: string, y: string)
    requires t.Reference? && WellFormed(t) && !Breaks(t, dr, dc)
    ensures BROKEN + x != Replace(t, dr, dc, y)
  {
    var name := Name(MovedColumn(t, dc));
    NameIsUpper(MovedColumn(t, dc));
    var shown := Address(t.colLock, name, t.rowLock, Decimal(MovedRow(t, dr) + 1), y);
    assert shown[0] == if t.colLock then '$' else name[0];
    assert (BROKEN + x)[0] == '#';
  }

  lemma BrokenForGoodRest(ts: seq<Token>, dr: int, dc: int, rows: int, cols: int)
    requires ts != [] && WellFormed(ts[0])
    ensures BrokenForGood(ts, dr, dc, rows, cols)
      <==> (Stays(ts[0], dr, dc) || Breaks(ts[0], rows, cols)) && BrokenForGood(ts[1..], dr, dc, rows, cols)
  {
    if (Stays(ts[0], dr, dc) || Breaks(ts[0], rows, cols)) && BrokenForGood(ts[1..], dr, dc, rows, cols) {
      forall i | 0 <= i < |ts| && WellFormed(ts[i]) && !Stays(ts[i], dr, dc) ensures Breaks(ts[i], rows, cols) {
        if i > 0 { assert ts[i] == ts[1..][i - 1]; }
      }
    }
    if BrokenForGood(ts, dr, dc, rows, cols) {
      forall i | 0 <= i < |ts[1..]| && WellFormed(ts[1..][i]) && !Stays(ts[1..][i], dr, dc)
        ensures Breaks(ts[1..][i], rows, cols)
      {
        assert ts[1..][i] == ts[i + 1];
      }
    }
  }

  lemma {:induction false} ReplaceAllMovedIff(ts: seq<Token>, dr: int, dc: int, dr': int, dc': int,
                                              rows: int, cols: int)
    requires Safe(ts, dr, dc) && rows == dr + dr' && cols == dc + dc'
    ensures ReplaceAll(MovedAll(ts, dr, dc), dr', dc') == ReplaceAll(ts, rows, cols)
      <==> BrokenForGood(ts, dr, dc, rows, cols)
    decreases |ts|
  {
    if ts != [] {
      var us, vs := MovedAll(ts, dr, dc), MovedAll(ts[1..], dr, dc);
      var twice, once := ReplaceAll(vs, dr', dc'), ReplaceAll(ts[1..], rows, cols);
      SafeRest(ts, dr, dc);
      ReplaceAllMovedIff(ts[1..], dr, dc, dr', dc', rows, cols);
      BrokenForGoodRest(ts, dr, dc, rows, cols);
      if Stays(ts[0], dr, dc) {
        assert us[1..] == vs;
        ReplaceMoved(ts[0], us[0], dr, dc, dr', dc', rows, cols, twice);
        SameFront(ts[0], rows, cols, twice, once);
      } else {
        ReplaceBroken(vs, dr', dc');
        if Breaks(ts[0], rows, cols) {
          SameFront(ts[0], rows, cols, twice, once);
        } else {
          BrokenDiffers(ts[0], rows, cols, twice, once);
        }
      }
    }
  }

  /** Translating by one displacement and then another, the first step being safe, is translating once by their
      sum if and only if what the first step breaks stays broken. */
  lemma TranslateComposesIff(formula: string, dr: int, dc: int, dr': int, dc': int, rows: int, cols: int)
    requires rows == dr + dr' && cols == dc + dc' && Safe(Scan(false, formula), dr, dc)
    ensures Translate(Translate(formula, dr, dc), dr', dc') == Translate(formula, rows, cols)
      <==> BrokenForGood(Scan(false, formula), dr, dc, rows, cols)
  {
    ScanTranslated(formula, dr, dc);
    ReplaceAllMovedIff(Scan(false, formula), dr, dc, dr', dc', rows, cols);
  }

  lemma TranslateComposes(formula: string, dr: int, dc: int, dr': int, dc': int, rows: int, cols: int)
    requires rows == dr + dr' && cols == dc + dc'
    requires Safe(Scan(false, formula), dr, dc)
    requires BrokenForGood(Scan(false, formula), dr, dc, rows, cols)
    ensures Translate(Translate(formula, dr, dc), dr', dc') == Translate(formula, rows, cols)
  {
    TranslateComposesIff(formula, dr, dc, dr', dc', rows, cols);
  }

  /** In particular when every reference stays on the sheet and within three column letters; the second
      step may still push references off the sheet. */
  lemma TranslateComposesOnSheet(formula: string, dr: int, dc: int, dr': int, dc': int, rows: int, cols: int)
    requires rows == dr + dr' && cols == dc + dc' && AllStay(formula, dr, dc)
    ensures Translate(Translate(formula, dr, dc), dr', dc') == Translate(formula, rows, cols)
  {
    TranslateComposes(formula, dr, dc, dr', dc', rows, cols);
  }

  lemma MovedAllOnSheet(ts: seq<Token>, dr: int, dc: int)
    requires forall i :: 0 <= i < |ts| ==> WellFormed(ts[i]) && Stays(ts[i], dr, dc)
    ensures |MovedAll(ts, dr, dc)| == |ts|
    ensures forall i :: 0 <= i < |ts| ==> MovedAll(ts, dr, dc)[i] == Moved(ts[i], dr, dc)
    decreases |ts|
  {
    if ts != [] { MovedAllOnSheet(ts[1..], dr, dc); }
  }

  // ----- staying on the sheet is needed -----

  /** The formula that is just a reference. */
  function Only(t: Token): string {
    ['='] + Show(t, "")
  }

  lemma ScanOnly(t: Token)
    requires t.Reference? && WellFormed(t)
    ensures Scan(false, Only(t)) == [Chr('=')] + [t]
  {
    assert [t][1..] == [];
    NoMatchAt(Only(t));
    ScannedCons(false, Chr('='), [t]);
    ScanRender(false, [Chr('=')] + [t]);
  }

  lemma TranslateOnly(t: Token, dr: int, dc: int)
    requires t.Reference? && WellFormed(t)
    ensures Translate(Only(t), dr, dc) == ['='] + Replace(t, dr, dc, "")
  {
    ScanOnly(t);
    ReplaceAllPair(Chr('='), t, dr, dc);
  }

  lemma ReplaceAllPair(t: Token, u: Token, dr: int, dc: int)
    requires WellFormed(t) && WellFormed(u)
    ensures ReplaceAll([t] + [u], dr, dc) == Replace(t, dr, dc, Replace(u, dr, dc, ""))
  {
    assert ([t] + [u])[1..] == [u];
    assert [u][1..] == [];
    assert ReplaceAll([u], dr, dc) == Replace(u, dr, dc, ReplaceAll([], dr, dc));
  }

  lemma ScanAfterBroken(ts: seq<Token>)
    requires Scanned(false, ts)
    ensures Scan(false, ['='] + (BROKEN + Render(ts))) == [Chr('=')] + (BROKEN_TOKENS + ts)
  {
    BrokenIsScanned(ts);
    RenderBroken(ts);
    NoMatchAt(['='] + (BROKEN + Render(ts)));
    ScannedCons(false, Chr('='), BROKEN_TOKENS + ts);
    ScanRender(false, [Chr('=')] + (BROKEN_TOKENS + ts));
  }

  lemma TranslateAfterBroken(ts: seq<Token>, dr: int, dc: int)
    requires Scanned(false, ts) && forall i :: 0 <= i < |ts| ==> WellFormed(ts[i])
    ensures Translate(['='] + (BROKEN + Render(ts)), dr, dc) == ['='] + (BROKEN + ReplaceAll(ts, dr, dc))
  {
    ScanAfterBroken(ts);
    ReplaceBroken(ts, dr, dc);
    assert ([Chr('=')] + (BROKEN_TOKENS + ts))[1..] == BROKEN_TOKENS + ts;
  }

  lemma TranslateBroken(dr: int, dc: int)
    ensures Translate(['='] + (BROKEN + ""), dr, dc) == ['='] + (BROKEN + "")
  {
    TranslateAfterBroken([], dr, dc);
  }

  /** The reference stays on the sheet, but its column needs four letters or more. */
  predicate Outgrows(t: Token, dr: int, dc: int)
    requires t.Reference? && WellFormed(t)
  {
    MovedRow(t, dr) >= 0 && MovedColumn(t, dc) >= 18278
  }

  lemma BrokenOnce(t: Token, dr: int, dc: int)
    requires t.Reference? && WellFormed(t) && Breaks(t, dr, dc)
    ensures Translate(Only(t), dr, dc) == ['='] + (BROKEN + "")
  {
    TranslateOnly(t, dr, dc);
    assert Replace(t, dr, dc, "") == BROKEN + "";
  }

  lemma OneBehind(x: string, y: string)
    requires x != y
    ensures ['='] + x != ['='] + y
  {
    assert (['='] + x)[1..] == x && (['='] + y)[1..] == y;
  }

  lemma NotBroken(colLock: bool, letters: string, rowLock: bool, digits: string)
    requires letters != "" && AllUpper(letters)
    ensures Address(colLock, letters, rowLock, digits, "") != BROKEN + ""
  {
    assert Address(colLock, letters, rowLock, digits, "")[0] != BROKEN[0];
  }

  lemma StaysUnbroken(t: Token, dr: int, dc: int)
    requires t.Reference? && WellFormed(t) && !Breaks(t, dr, dc)
    ensures Replace(t, dr, dc, "") != BROKEN + ""
  {
    NameIsUpper(MovedColumn(t, dc));
    NotBroken(t.colLock, Name(MovedColumn(t, dc)), t.rowLock, Decimal(MovedRow(t, dr) + 1));
  }

  lemma TwoMovesWhenBroken(t: Token, dr: int, dc: int, dr': int, dc': int, rows: int, cols: int)
    requires t.Reference? && WellFormed(t) && Breaks(t, dr, dc)
    ensures Translate(Translate(Only(t), dr, dc), dr', dc') == Translate(Only(t), rows, cols) <==> Breaks(t, rows, cols)
  {
    BrokenOnce(t, dr, dc);
    TranslateBroken(dr', dc');
    if Breaks(t, rows, cols) {
      BrokenOnce(t, rows, cols);
    } else {
      TranslateOnly(t, rows, cols);
      StaysUnbroken(t, rows, cols);
      OneBehind(Replace(t, rows, cols, ""), BROKEN + "");
    }
  }

  lemma StayingIsSafe(t: Token, dr: int, dc: int, rows: int, cols: int)
    requires t.Reference? && WellFormed(t) && Stays(t, dr, dc)
    ensures Safe([Chr('=')] + [t], dr, dc) && BrokenForGood([Chr('=')] + [t], dr, dc, rows, cols)
  {
  }

  lemma TwoMovesWhenStaying(t: Token, dr: int, dc: int, dr': int, dc': int, rows: int, cols: int)
    requires t.Reference? && WellFormed(t) && Stays(t, dr, dc) && rows == dr + dr' && cols == dc + dc'
    ensures Translate(Translate(Only(t), dr, dc), dr', dc') == Translate(Only(t), rows, cols)
  {
    ScanOnly(t);
    StayingIsSafe(t, dr, dc, rows, cols);
    TranslateComposes(Only(t), dr, dc, dr', dc', rows, cols);
  }

  // A column of four letters or more is no reference to the scanner.

  function Chars(s: string): (ts: seq<Token>)
    ensures forall i :: 0 <= i < |ts| ==> ts[i].Chr?
  {
    if s == "" then [] else [Chr(s[0])] + Chars(s[1..])
  }

  lemma {:induction false} CharsAreText(s: string, dr: int, dc: int)
    ensures Render(Chars(s)) == s && ReplaceAll(Chars(s), dr, dc) == s
  {
    if s != "" {
      CharsAreText(s[1..], dr, dc);
      assert Chars(s)[1..] == Chars(s[1..]);
    }
  }

  lemma CharFirst(afterWord: bool, c: char, rest: string)
    requires Scanned(IsWord(c), Chars(rest)) && (afterWord || MatchFront([c] + rest).NoMatch?)
    ensures Scanned(afterWord, Chars([c] + rest))
  {
    CharsAreText(rest, 0, 0);
    assert ([c] + rest)[1..] == rest;
    ScannedCons(afterWord, Chr(c), Chars(rest));
  }

  lemma {:induction false} DigitsAreChars(afterWord: bool, digits: string)
    requires AllDigits(digits)
    ensures Scanned(afterWord, Chars(digits))
    decreases |digits|
  {
    if digits != "" {
      DigitsAreChars(true, digits[1..]);
      NoMatchAt(digits);
      assert [digits[0]] + digits[1..] == digits;
      CharFirst(afterWord, digits[0], digits[1..]);
    }
  }

  lemma {:induction false} LettersAreChars(letters: string, rest: string)
    requires AllLetters(letters) && Scanned(true, Chars(rest))
    ensures Scanned(true, Chars(letters + rest))
    decreases |letters|
  {
    if letters == "" {
      assert letters + rest == rest;
    } else {
      LettersAreChars(letters[1..], rest);
      assert [letters[0]] + (letters[1..] + rest) == letters + rest;
      CharFirst(true, letters[0], letters[1..] + rest);
    }
  }

  lemma LongIsNoMatch(colLock: bool, letters: string, rest: string)
    requires |letters| > 3 && AllLetters(letters) && (rest == "" || !IsLetter(rest[0]))
    ensures MatchFront(Dollar(colLock) + (letters + rest)).NoMatch?
  {
    LettersShown(letters, rest);
    UnlockedShown(colLock, letters + rest);
  }

  lemma LockedDigitsAreChars(rowLock: bool, digits: string)
    requires AllDigits(digits)
    ensures Scanned(true, Chars(Dollar(rowLock) + (digits + "")))
  {
    assert digits + "" == digits;
    if rowLock {
      DigitsAreChars(false, digits);
      CharFirst(true, '$', digits);
      assert Dollar(rowLock) + digits == ['$'] + digits;
    } else {
      DigitsAreChars(true, digits);
      assert Dollar(rowLock) + digits == digits;
    }
  }

  lemma LongIsPlainText(letters: string, rowLock: bool, digits: string, dr: int, dc: int)
    requires |letters| > 3 && AllLetters(letters) && digits != "" && AllDigits(digits)
    ensures var s := ['='] + Address(false, letters, rowLock, digits, ""); Translate(s, dr, dc) == s
  {
    var rest := Dollar(rowLock) + (digits + "");
    var word := letters + rest;
    var s := ['='] + Address(false, letters, rowLock, digits, "");
    assert Address(false, letters, rowLock, digits, "") == word;
    LockedDigitsAreChars(rowLock, digits);
    LettersAreChars(letters[1..], rest);
    assert [letters[0]] + (letters[1..] + rest) == word;
    LongIsNoMatch(false, letters, rest);
    assert Dollar(false) + word == word;
    CharFirst(false, letters[0], letters[1..] + rest);
    NoMatchAt(s);
    CharFirst(false, '=', word);
    PlainTextStays(s, dr, dc);
  }

  lemma PlainTextStays(s: string, dr: int, dc: int)
    requires Scanned(false, Chars(s))
    ensures Translate(s, dr, dc) == s
  {
    CharsAreText(s, dr, dc);
    ScanRender(false, Chars(s));
  }

  lemma AddressParts(letters: string, digits: string, letters': string, digits': string, rowLock: bool)
    requires letters != "" && letters' != "" && AllLetters(letters) && AllLetters(letters')
    requires digits != "" && digits' != "" && AllDigits(digits) && AllDigits(digits')
    requires Address(false, letters, rowLock, digits, "") == Address(false, letters', rowLock, digits', "")
    ensures letters == letters' && digits == digits'
  {
    var rest, rest' := Dollar(rowLock) + (digits + ""), Dollar(rowLock) + (digits' + "");
    assert Address(false, letters, rowLock, digits, "") == letters + rest;
    assert Address(false, letters', rowLock, digits', "") == letters' + rest';
    LettersShown(letters, rest);
    LettersShown(letters', rest');
    assert rest == rest';
    assert rest[|Dollar(rowLock)|..] == digits && rest'[|Dollar(rowLock)|..] == digits';
  }

  lemma SameAddress(col: nat, row: nat, col': nat, row': nat, rowLock: bool)
    requires Address(false, Name(col), rowLock, Decimal(row + 1), "")
      == Address(false, Name(col'), rowLock, Decimal(row' + 1), "")
    ensures col == col' && row == row'
  {
    NameIsUpper(col);
    NameIsUpper(col');
    AddressParts(Name(col), Decimal(row + 1), Name(col'), Decimal(row' + 1), rowLock);
    NameIsInjective(col, col');
    DecimalIsInjective(row + 1, row' + 1);
  }

  lemma ColumnFits(t: Token)
    requires t.Reference? && WellFormed(t)
    ensures 0 <= ColumnOf(t) < 18278 && RowOf(t) >= -1
  {
    NameOfOrdinal(Upper(t.letters));
    ThreeLetters(ColumnOf(t));
  }

  lemma ReplaceUnbroken(t: Token, dr: int, dc: int, col: nat, row: nat)
    requires t.Reference? && WellFormed(t) && MovedColumn(t, dc) == col && MovedRow(t, dr) == row
    ensures Replace(t, dr, dc, "") == Address(t.colLock, Name(col), t.rowLock, Decimal(row + 1), "")
  {
  }

  lemma OutgrownStays(col: nat, rowLock: bool, row: nat, dr: int, dc: int)
    requires col >= 18278
    ensures var s := ['='] + Address(false, Name(col), rowLock, Decimal(row + 1), ""); Translate(s, dr, dc) == s
  {
    NameIsUpper(col);
    ThreeLetters(col);
    LongIsPlainText(Name(col), rowLock, Decimal(row + 1), dr, dc);
  }

  lemma TwoMovesWhenOutgrown(t: Token, dr: int, dc: int, dr': int, dc': int, rows: int, cols: int)
    requires t.Reference? && WellFormed(t) && Outgrows(t, dr, dc)
    ensures Translate(Translate(Only(t), dr, dc), dr', dc') == Translate(Only(t), rows, cols)
      <==> MovedRow(t, rows) == MovedRow(t, dr) && MovedColumn(t, cols) == MovedColumn(t, dc)
  {
    ColumnFits(t);
    var col, row := MovedColumn(t, dc), MovedRow(t, dr);
    TranslateOnly(t, dr, dc);
    ReplaceUnbroken(t, dr, dc, col, row);
    OutgrownStays(col, t.rowLock, row, dr', dc');
    TranslateOnly(t, rows, cols);
    OutgrownAgain(t, rows, cols, col, row);
  }

  lemma OutgrownAgain(t: Token, rows: int, cols: int, col: nat, row: nat)
    requires t.Reference? && WellFormed(t) && !t.colLock
    ensures ['='] + Address(false, Name(col), t.rowLock, Decimal(row + 1), "") == ['='] + Replace(t, rows, cols, "")
      <==> MovedRow(t, rows) == row && MovedColumn(t, cols) == col
  {
    var shown := Address(false, Name(col), t.rowLock, Decimal(row + 1), "");
    if Breaks(t, rows, cols) {
      NameIsUpper(col);
      NotBroken(false, Name(col), t.rowLock, Decimal(row + 1));
      assert Replace(t, rows, cols, "") == BROKEN + "";
    } else {
      ReplaceUnbroken(t, rows, cols, MovedColumn(t, cols), MovedRow(t, rows));
      if shown == Replace(t, rows, cols, "") {
        SameAddress(col, row, MovedColumn(t, cols), MovedRow(t, rows), t.rowLock);
      }
    }
    if shown != Replace(t, rows, cols, "") { OneBehind(shown, Replace(t, rows, cols, "")); }
  }

  /** For a formula that is one reference, two moves equal one exactly when the first keeps the reference, or
      breaks it for good, or lengthens its column beyond three letters and the second move does nothing. */
  lemma TwoMovesAreOneIff(t: Token, dr: int, dc: int, dr': int, dc': int, rows: int, cols: int)
    requires t.Reference? && WellFormed(t) && rows == dr + dr' && cols == dc + dc'
    ensures Translate(Translate(Only(t), dr, dc), dr', dc') == Translate(Only(t), rows, cols)
      <==> (|| Stays(t, dr, dc)
            || (Breaks(t, dr, dc) && Breaks(t, rows, cols))
            || (Outgrows(t, dr, dc) && MovedRow(t, rows) == MovedRow(t, dr)
                && MovedColumn(t, cols) == MovedColumn(t, dc)))
  {
    if Stays(t, dr, dc) {
      TwoMovesWhenStaying(t, dr, dc, dr', dc', rows, cols);
    } else if Breaks(t, dr, dc) {
      TwoMovesWhenBroken(t, dr, dc, dr', dc', rows, cols);
    } else {
      TwoMovesWhenOutgrown(t, dr, dc, dr', dc', rows, cols);
    }
  }

  /** In particular a reference pushed off the sheet, in any direction, does not come back: moving `=A1` one
      row up and one row down again is not the same as not moving it. */
  lemma BrokenDoesNotComeBack(t: Token, dr: int, dc: int, dr': int, dc': int, rows: int, cols: int)
    requires t.Reference? && WellFormed(t) && rows == dr + dr' && cols == dc + dc'
    requires Breaks(t, dr, dc) && !Breaks(t, rows, cols)
    ensures Translate(Translate(Only(t), dr, dc), dr', dc') != Translate(Only(t), rows, cols)
  {
    TwoMovesAreOneIff(t, dr, dc, dr', dc', rows, cols);
  }

  // ----- and so is the absence of a `$` directly behind a breaking reference -----

  /** The malformed formula of a reference, a `$` and another reference, as in `=A1$B2`. */
  function DollarBetween(t: Token, u: Token): string {
    ['='] + Show(t, ['$'] + Show(u, ""))
  }

  lemma RenderOne(t: Token)
    requires t.Reference? && WellFormed(t)
    ensures Render([t]) == Show(t, "") && Scanned(false, [t])
    ensures forall dr, dc :: ReplaceAll([t], dr, dc) == Replace(t, dr, dc, "")
  {
    assert [t][1..] == [];
  }

  lemma ScanDollar(t: Token, u: Token)
    requires t.Reference? && WellFormed(t) && u.Reference? && WellFormed(u)
    ensures Scan(false, DollarBetween(t, u)) == [Chr('=')] + ([t] + ([Chr('$')] + [u]))
  {
    RenderOne(u);
    ScannedCons(true, Chr('$'), [u]);
    ScannedCons(false, t, [Chr('$')] + [u]);
    NoMatchAt(DollarBetween(t, u));
    ScannedCons(false, Chr('='), [t] + ([Chr('$')] + [u]));
    ScanRender(false, [Chr('=')] + ([t] + ([Chr('$')] + [u])));
  }

  lemma TranslateDollar(t: Token, u: Token, dr: int, dc: int)
    requires t.Reference? && WellFormed(t) && u.Reference? && WellFormed(u)
    ensures Translate(DollarBetween(t, u), dr, dc) == ['='] + Replace(t, dr, dc, ['$'] + Replace(u, dr, dc, ""))
  {
    ScanDollar(t, u);
    RenderOne(u);
    var last, mid := [Chr('$')] + [u], [t] + ([Chr('$')] + [u]);
    assert last[1..] == [u] && mid[1..] == last && ([Chr('=')] + mid)[1..] == mid;
    assert ReplaceAll(last, dr, dc) == ['$'] + Replace(u, dr, dc, "");
    assert ReplaceAll(mid, dr, dc) == Replace(t, dr, dc, ReplaceAll(last, dr, dc));
  }

  lemma AddressIsUnique(t: Token, u: Token)
    requires t.Reference? && WellFormed(t) && u.Reference? && WellFormed(u) && Show(t, "") == Show(u, "")
    ensures t == u
  {
    MatchShown(t, "");
    MatchShown(u, "");
  }

  /** Once the reference before it has become `#REF!`, the `$` locks the column of the one behind: a second
      step no longer moves it, although a single step would have. */
  lemma DollarLocksColumn(t: Token, u: Token, dc: int, dc': int, both: int)
    requires t.Reference? && WellFormed(t) && u.Reference? && WellFormed(u) && !u.colLock && !t.colLock
    requires both == dc + dc' && dc' != 0 && ColumnOf(t) + dc < 0 && ColumnOf(t) + both < 0
    requires Stays(u, 0, dc) && Stays(u, 0, both)
    ensures Translate(Translate(DollarBetween(t, u), 0, dc), 0, dc') != Translate(DollarBetween(t, u), 0, both)
  {
    LockedOnce(t, u, dc, MovedColumn(u, dc), MovedRow(u, 0));
    LockedOnce(t, u, both, MovedColumn(u, both), MovedRow(u, 0));
    LockedTextStaysApart(MovedColumn(u, dc), MovedColumn(u, both), u.rowLock, MovedRow(u, 0), dc');
  }

  lemma LockedTextStaysApart(from: nat, to: nat, rowLock: bool, row: nat, dc: int)
    requires from != to && from < 18278 && to < 18278
    ensures Translate(LockedText(from, rowLock, row), 0, dc) != LockedText(to, rowLock, row)
  {
    LockedStays(from, rowLock, row, dc);
    LockedTextsDiffer(from, to, rowLock, row);
  }

  /** The broken reference in front of a column-locked one. */
  function LockedText(col: nat, rowLock: bool, row: nat): string
    requires col < 18278
  {
    ['='] + (BROKEN + Show(ReferenceTo(true, col, rowLock, row), ""))
  }

  lemma LockedTextsDiffer(from: nat, to: nat, rowLock: bool, row: nat)
    requires from != to && from < 18278 && to < 18278
    ensures LockedText(from, rowLock, row) != LockedText(to, rowLock, row)
  {
    AddressesDiffer(from, to, rowLock, row);
    BehindBroken(Show(ReferenceTo(true, from, rowLock, row), ""), Show(ReferenceTo(true, to, rowLock, row), ""));
  }

  lemma LockedOnce(t: Token, u: Token, dc: int, col: nat, row: nat)
    requires t.Reference? && WellFormed(t) && u.Reference? && WellFormed(u) && !u.colLock && !t.colLock
    requires ColumnOf(t) + dc < 0 && RowOf(u) == row && ColumnOf(u) + dc == col < 18278
    ensures Translate(DollarBetween(t, u), 0, dc) == LockedText(col, u.rowLock, row)
  {
    TranslateDollar(t, u, 0, dc);
    ReplaceBecomesLocked(u, dc, col, row);
    ReplaceBreaks(t, dc, ['$'] + Replace(u, 0, dc, ""));
  }

  lemma AddressesDiffer(from: nat, to: nat, rowLock: bool, row: nat)
    requires from != to && from < 18278 && to < 18278
    ensures Show(ReferenceTo(true, from, rowLock, row), "") != Show(ReferenceTo(true, to, rowLock, row), "")
  {
    var v, w := ReferenceTo(true, from, rowLock, row), ReferenceTo(true, to, rowLock, row);
    if Show(v, "") == Show(w, "") {
      AddressIsUnique(v, w);
      assert false;
    }
  }

  lemma BehindBroken(x: string, y: string)
    requires x != y
    ensures ['='] + (BROKEN + x) != ['='] + (BROKEN + y)
  {
    assert (BROKEN + x)[5..] == x && (BROKEN + y)[5..] == y;
    OneBehind(BROKEN + x, BROKEN + y);
  }

  lemma LockInFront(letters: string, rowLock: bool, digits: string)
    ensures Address(true, letters, rowLock, digits, "") == ['$'] + Address(false, letters, rowLock, digits, "")
  {
  }

  lemma ReferenceToShown(colLock: bool, col: nat, rowLock: bool, row: nat)
    requires col < 18278
    ensures Show(ReferenceTo(colLock, col, rowLock, row), "")
         == Address(colLock, Name(col), rowLock, Decimal(row + 1), "")
  {
  }

  lemma ReplaceStaying(u: Token, dc: int, col: nat, row: nat)
    requires u.Reference? && WellFormed(u) && !u.colLock && RowOf(u) == row && ColumnOf(u) + dc == col
    ensures Replace(u, 0, dc, "") == Address(false, Name(col), u.rowLock, Decimal(row + 1), "")
  {
    assert MovedColumn(u, dc) == col && MovedRow(u, 0) == row;
  }

  lemma ReplaceBecomesLocked(u: Token, dc: int, col: nat, row: nat)
    requires u.Reference? && WellFormed(u) && !u.colLock && RowOf(u) == row && ColumnOf(u) + dc == col < 18278
    ensures ['$'] + Replace(u, 0, dc, "") == Show(ReferenceTo(true, col, u.rowLock, row), "")
  {
    ReplaceStaying(u, dc, col, row);
    ReferenceToShown(true, col, u.rowLock, row);
    LockInFront(Name(col), u.rowLock, Decimal(row + 1));
  }

  lemma ReplaceBreaks(t: Token, dc: int, rest: string)
    requires t.Reference? && WellFormed(t) && !t.colLock && ColumnOf(t) + dc < 0
    ensures Replace(t, 0, dc, rest) == BROKEN + rest
  {
  }

  lemma ReplaceLocked(v: Token, dc: int, col: nat, row: nat)
    requires v.Reference? && WellFormed(v) && v.colLock && RowOf(v) == row && ColumnOf(v) == col
    ensures Replace(v, 0, dc, "") == Address(true, Name(col), v.rowLock, Decimal(row + 1), "")
  {
    assert MovedColumn(v, dc) == col && MovedRow(v, 0) == row;
  }

  lemma LockedStays(col: nat, rowLock: bool, row: nat, dc: int)
    requires col < 18278
    ensures Translate(LockedText(col, rowLock, row), 0, dc) == LockedText(col, rowLock, row)
  {
    var v := ReferenceTo(true, col, rowLock, row);
    ReferenceToShown(true, col, rowLock, row);
    ReplaceLocked(v, dc, col, row);
    BehindBrokenStays(v, dc);
  }

  lemma BehindBrokenStays(v: Token, dc: int)
    requires v.Reference? && WellFormed(v) && Replace(v, 0, dc, "") == Show(v, "")
    ensures Translate(['='] + (BROKEN + Show(v, "")), 0, dc) == ['='] + (BROKEN + Show(v, ""))
  {
    RenderOne(v);
    TranslateAfterBroken([v], 0, dc);
  }
}
