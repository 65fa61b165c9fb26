/** Closing the parentheses a formula leaves open. */
module Parentheses {

  /** Where a scan of the text stands: inside a quoted literal or not, and how many parentheses are open. */
  datatype Scan = Scan(inText: bool, depth: int)

  /** The plain scan: every quote flips, parentheses count outside quotes. */
  function Step(s: Scan, c: char): Scan {
    if c == '"' then Scan(!s.inText, s.depth)
    else if s.inText then s
    else if c == '(' then Scan(false, s.depth + 1)
    else if c == ')' then Scan(false, s.depth - 1)
    else s
  }

  function ScanAll(text: string): Scan {
    if text == "" then Scan(false, 0) else Step(ScanAll(text[..|text| - 1]), text[|text| - 1])
  }

  function Closers(n: nat): string {
    seq(n, _ => ')')
  }

  predicate IsFormula(text: string) {
    text != "" && text[0] == '='
  }

  function Completed(text: string): string {
    if IsFormula(text) && ScanAll(text).depth > 0 then text + Closers(ScanAll(text).depth) else text
  }

  /** complete_formula_parentheses: the scan that skips a doubled quote inside a literal agrees with the
      plain scan. */
  method CompleteFormulaParentheses(text: string) returns (completed: string)
    ensures completed == Completed(text)
  {
    if !IsFormula(text) {
      return text;
    }
    var depth, inText, index := 0, false, 0;
    while index < |text|
      invariant 0 <= index <= |text|
      invariant ScanAll(text[..index]) == Scan(inText, depth)
    {
      var c := text[index];
      ScanNext(text, index);
      if c == '"' {
        if inText && index + 1 < |text| && text[index + 1] == '"' {
          index := index + 1;
          ScanNext(text, index);
        } else {
          inText := !inText;
        }
      } else if !inText {
        if c == '(' {
          depth := depth + 1;
        } else if c == ')' {
          depth := depth - 1;
        }
      }
      index := index + 1;
    }
    assert text[..index] == text;
    if depth > 0 {
      return text + Closers(depth);
    }
    return text;
  }

  lemma ScanNext(text: string, index: nat)
    requires index < |text|
    ensures ScanAll(text[..index + 1]) == Step(ScanAll(text[..index]), text[index])
  {
    assert text[..index + 1][..index] == text[..index];
  }

  lemma {:induction false} ScanClosers(text: string, n: nat)
    ensures ScanAll(text + Closers(n)) ==
              if ScanAll(text).inText then ScanAll(text) else Scan(false, ScanAll(text).depth - n)
    decreases n
  {
    if n == 0 {
      assert text + Closers(0) == text;
    } else {
      assert (text + Closers(n))[..|text| + n - 1] == text + Closers(n - 1);
      ScanClosers(text, n - 1);
    }
  }

  /** Completion only appends, and when the quotes of a formula are closed it leaves no parenthesis open
      and closes none that was not. */
  lemma CompletionBalances(text: string)
    ensures text <= Completed(text)
    ensures IsFormula(text) && !ScanAll(text).inText ==>
      ScanAll(Completed(text)) == Scan(false, if ScanAll(text).depth > 0 then 0 else ScanAll(text).depth)
  {
    if ScanAll(text).depth > 0 { ScanClosers(text, ScanAll(text).depth); }
  }

  /** Completing twice is completing once exactly unless a formula with an open parenthesis ends inside a
      quoted literal: there every completion appends the closers again, as literal text. */
  lemma CompletionIsIdempotentIff(text: string)
    ensures Completed(Completed(text)) == Completed(text)
      <==> !(IsFormula(text) && ScanAll(text).depth > 0 && ScanAll(text).inText)
  {
    if IsFormula(text) && ScanAll(text).depth > 0 { ScanClosers(text, ScanAll(text).depth); }
  }

  function Count(text: string, c: char): nat {
    if text == "" then 0 else Count(text[..|text| - 1], c) + (if text[|text| - 1] == c then 1 else 0)
  }

  predicate IsOutside(text: string, c: char, i: nat)
    requires i < |text|
  {
    text[i] == c && Count(text[..i], '"') % 2 == 0
  }

  /** Where c stands outside quoted literals, that is, behind an even number of quotes. */
  function Outside(text: string, c: char): set<nat> {
    set i: nat | i < |text| && IsOutside(text, c, i)
  }

  /** The scan is in a literal behind an odd number of quotes, and its depth is the number of parentheses opened
      outside literals less that of those closed there. */
  lemma {:induction false} DepthCounts(text: string)
    ensures ScanAll(text).inText <==> Count(text, '"') % 2 == 1
    ensures ScanAll(text).depth == |Outside(text, '(')| - |Outside(text, ')')|
    decreases |text|
  {
    if text != "" {
      var front := text[..|text| - 1];
      DepthCounts(front);
      OutsideOneMore(front, text, '(');
      OutsideOneMore(front, text, ')');
    }
  }

  lemma OutsideOneMore(front: string, text: string, c: char)
    requires text != "" && front == text[..|text| - 1]
    ensures |Outside(text, c)|
      == |Outside(front, c)| + if text[|front|] == c && Count(front, '"') % 2 == 0 then 1 else 0
  {
    var n := |front|;
    forall i: nat | i < n ensures IsOutside(front, c, i) <==> IsOutside(text, c, i) {
      assert front[..i] == text[..i];
    }
    assert IsOutside(text, c, n) <==> text[n] == c && Count(front, '"') % 2 == 0;
    OneMoreInSet(Outside(front, c), Outside(text, c), n, IsOutside(text, c, n));
  }

  lemma OneMoreInSet(xs: set<nat>, ys: set<nat>, n: nat, more: bool)
    requires n !in xs && forall i: nat :: i in ys <==> i in xs || (i == n && more)
    ensures |ys| == |xs| + if more then 1 else 0
  {
    assert ys == xs + if more then {n} else {};
  }

  lemma {:induction false} DepthFallsSlowly(text: string, suffix: string)
    ensures ScanAll(text + suffix).depth >= ScanAll(text).depth - |suffix|
    decreases |suffix|
  {
    if suffix == "" {
      assert text + suffix == text;
    } else {
      var longer := text + suffix;
      assert longer[..|longer| - 1] == text + suffix[..|suffix| - 1];
      DepthFallsSlowly(text, suffix[..|suffix| - 1]);
    }
  }

  /** No shorter text behind a formula closes what it leaves open. */
  lemma CompletionIsShortest(text: string, suffix: string)
    requires IsFormula(text) && ScanAll(text + suffix).depth <= 0
    ensures |Completed(text)| <= |text + suffix|
  {
    DepthFallsSlowly(text, suffix);
  }

  /** A text that is no formula, or leaves nothing open, is kept as it is. */
  lemma OnlyOpenFormulasChange(text: string)
    ensures Completed(text) != text <==> IsFormula(text) && ScanAll(text).depth > 0
  {
    if IsFormula(text) && ScanAll(text).depth > 0 {
      assert |Completed(text)| > |text|;
    }
  }
}
