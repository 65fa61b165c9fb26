/** Column letters: A..Z, AA..ZZ, AAA.. (bijective base 26), and decimal row numbers. */
module ColumnNames {

  predicate IsUpper(c: char) {
    'A' <= c <= 'Z'
  }

  predicate IsLower(c: char) {
    'a' <= c <= 'z'
  }

  predicate IsLetter(c: char) {
    IsUpper(c) || IsLower(c)
  }

  predicate IsDigit(c: char) {
    '0' <= c <= '9'
  }

  predicate AllUpper(s: string) {
    forall i :: 0 <= i < |s| ==> IsUpper(s[i])
  }

  predicate AllLetters(s: string) {
    forall i :: 0 <= i < |s| ==> IsLetter(s[i])
  }

  predicate AllDigits(s: string) {
    forall i :: 0 <= i < |s| ==> IsDigit(s[i])
  }

  function UpperChar(c: char): (u: char)
    ensures IsLetter(c) ==> IsUpper(u)
    ensures IsUpper(c) ==> u == c
  {
    if IsLower(c) then c - 'a' + 'A' else c
  }

  function Upper(s: string): (u: string)
    ensures |u| == |s|
    ensures forall i :: 0 <= i < |s| ==> u[i] == UpperChar(s[i])
  {
    seq(|s|, i requires 0 <= i < |s| => UpperChar(s[i]))
  }

  lemma UpperOfUpper(s: string)
    requires AllUpper(s)
    ensures Upper(s) == s
  {
    assert forall i :: 0 <= i < |s| ==> Upper(s)[i] == s[i];
  }

  // ----- printing and parsing column letters -----

  /** The name of a column: the specification both printing loops meet. */
  function Name(column: nat): (name: string)
    decreases column
  {
    (if column < 26 then "" else Name(column / 26 - 1)) + ['A' + (column % 26) as char]
  }

  /** One plus the column a name stands for; zero for the empty name. */
  function Ordinal(name: string): nat
    requires AllUpper(name)
  {
    if name == "" then 0
    else Ordinal(name[..|name| - 1]) * 26 + (name[|name| - 1] - 'A') as nat + 1
  }

  /** One turn of either printing loop. */
  lemma NameStep(column: nat, letter: char, name: string)
    requires letter == 'A' + (column % 26) as char
    ensures Name(column) + name == (if column < 26 then "" else Name(column / 26 - 1)) + ([letter] + name)
  {
  }

  method ColumnName(column: nat) returns (name: string)
    ensures name == Name(column)
  {
    name := "";
    var rest := column;
    while true
      invariant Name(rest) + name == Name(column)
      decreases rest
    {
      var quotient, remainder := rest / 26, rest % 26;
      var letter := 'A' + remainder as char;
      NameStep(rest, letter, name);
      name := [letter] + name;
      if quotient == 0 {
        return;
      }
      rest := quotient - 1;
    }
  }

  method ExcelColumnName(column: nat) returns (name: string)
    ensures name == Name(column)
  {
    name := "";
    var rest: int := column;
    while true
      invariant rest >= 0 && Name(rest) + name == Name(column)
      decreases rest
    {
      var letter := 'A' + (rest % 26) as char;
      NameStep(rest, letter, name);
      name := [letter] + name;
      rest := rest / 26 - 1;
      if rest < 0 {
        return;
      }
    }
  }

  /** The parsing loop shared by the translator and go_to_address. */
  method ColumnIndex(name: string) returns (column: int)
    requires AllLetters(name)
    ensures AllUpper(Upper(name)) && column == Ordinal(Upper(name)) - 1
  {
    var upper := Upper(name);
    var total := 0;
    for i := 0 to |upper|
      invariant total == Ordinal(upper[..i])
    {
      assert upper[..i + 1][..i] == upper[..i];
      total := total * 26 + (upper[i] - 'A') as nat + 1;
    }
    assert upper[..|upper|] == upper;
    column := total - 1;
  }

  lemma {:induction false} NameIsUpper(column: nat)
    ensures Name(column) != "" && AllUpper(Name(column))
    decreases column
  {
    if column >= 26 { NameIsUpper(column / 26 - 1); }
  }

  /** Parsing undoes printing. */
  lemma {:induction false} OrdinalOfName(column: nat)
    ensures AllUpper(Name(column)) && Ordinal(Name(column)) == column + 1
    decreases column
  {
    NameIsUpper(column);
    var front := if column < 26 then "" else Name(column / 26 - 1);
    assert Name(column)[..|Name(column)| - 1] == front;
    if column >= 26 { OrdinalOfName(column / 26 - 1); }
  }

  /** Printing undoes parsing: every nonempty name of capital letters is the name of one column. */
  lemma {:induction false} NameOfOrdinal(name: string)
    requires name != "" && AllUpper(name)
    ensures Ordinal(name) > 0 && Name(Ordinal(name) - 1) == name
    decreases |name|
  {
    var front, digit := name[..|name| - 1], (name[|name| - 1] - 'A') as nat;
    var column := Ordinal(name) - 1;
    assert column == Ordinal(front) * 26 + digit && 0 <= digit < 26;
    assert column / 26 == Ordinal(front) && column % 26 == digit;
    assert name == front + ['A' + digit as char];
    if front != "" { NameOfOrdinal(front); }
  }

  /** Column naming is a bijection between the naturals and the nonempty capital-letter strings. */
  lemma NamingIsBijective(column: nat, name: string)
    requires name != "" && AllUpper(name)
    ensures Name(column) == name <==> column == Ordinal(name) - 1
  {
    OrdinalOfName(column);
    NameOfOrdinal(name);
  }

  /** A name fits the three letters a reference may have exactly below column 18278. */
  lemma ThreeLetters(column: nat)
    ensures |Name(column)| <= 3 <==> column < 18278
  {
    NameIsLonger(column);
    if column >= 26 {
      var second := column / 26 - 1;
      NameIsLonger(second);
      if second >= 26 {
        var third := second / 26 - 1;
        NameIsLonger(third);
        if third >= 26 { NameIsUpper(third / 26 - 1); }
      }
    }
  }

  lemma NameIsLonger(column: nat)
    ensures |Name(column)| == 1 + if column < 26 then 0 else |Name(column / 26 - 1)|
  {
  }

  // ----- decimal numbers -----

  function Decimal(n: nat): (s: string)
    ensures |s| > 0 && AllDigits(s)
    decreases n
  {
    (if n < 10 then "" else Decimal(n / 10)) + ['0' + (n % 10) as char]
  }

  function Number(s: string): nat
    requires AllDigits(s)
  {
    if s == "" then 0 else Number(s[..|s| - 1]) * 10 + (s[|s| - 1] - '0') as nat
  }

  lemma NumberAppend(front: string, digit: nat)
    requires AllDigits(front) && digit < 10
    ensures Number(front + ['0' + digit as char]) == Number(front) * 10 + digit
  {
    assert (front + ['0' + digit as char])[..|front|] == front;
  }

  lemma {:induction false} NumberOfDecimal(n: nat)
    ensures Number(Decimal(n)) == n
    decreases n
  {
    var front := if n < 10 then "" else Decimal(n / 10);
    if n >= 10 { NumberOfDecimal(n / 10); }
    NumberAppend(front, n % 10);
  }

  lemma NameIsInjective(column: nat, column': nat)
    requires Name(column) == Name(column')
    ensures column == column'
  {
    OrdinalOfName(column);
    OrdinalOfName(column');
  }

  lemma DecimalIsInjective(m: nat, n: nat)
    requires Decimal(m) == Decimal(n)
    ensures m == n
  {
    NumberOfDecimal(m);
    NumberOfDecimal(n);
  }
}
