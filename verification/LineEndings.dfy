/** Trusted text files: the committed bytes are recognised in a checkout whatever line endings it uses. */
module LineEndings {
  import opened Wrappers

  const LF: Byte := 10
  const CR: Byte := 13

  datatype Result = Ok(bytes: seq<Byte>) | MixedLineEndings | IdentityMismatch

  /** replace(b"\r\n", b"\n") */
  function ToLf(s: seq<Byte>): seq<Byte> {
    if s == [] then []
    else if |s| >= 2 && s[0] == CR && s[1] == LF then [LF] + ToLf(s[2..])
    else [s[0]] + ToLf(s[1..])
  }

  /** replace(b"\n", b"\r\n") */
  function ToCrlf(s: seq<Byte>): seq<Byte> {
    if s == [] then []
    else (if s[0] == LF then [CR, LF] else [s[0]]) + ToCrlf(s[1..])
  }

  /** _canonical_trusted_bytes */
  function Canonical(raw: seq<Byte>, expected: string, digest: seq<Byte> -> string): Result {
    if digest(raw) == expected then Ok(raw)
    else
      var canonical := ToLf(raw);
      if CR in canonical || ToCrlf(canonical) != raw then MixedLineEndings
      else if digest(canonical) != expected then IdentityMismatch
      else Ok(canonical)
  }

  datatype Identity = Identity(sha256: string, rawSha256: string, eol: string)

  /** _trusted_text_identity, once the path has been checked and the file read. */
  function TextIdentity(raw: seq<Byte>, expected: string, digest: seq<Byte> -> string): (r: (Result, Identity)) {
    var canonical := Canonical(raw, expected, digest);
    var eol := if canonical == Ok(raw) then "LF" else "CRLF";
    (canonical, Identity(expected, digest(raw), eol))
  }

  /** The digest stands for the committed bytes and no others. */
  ghost predicate Identifies(digest: seq<Byte> -> string, committed: seq<Byte>) {
    forall x :: digest(x) == digest(committed) ==> x == committed
  }

  lemma {:induction false} LfOfCrlf(s: seq<Byte>)
    requires CR !in s
    ensures ToLf(ToCrlf(s)) == s
    decreases |s|
  {
    if s != [] {
      LfOfCrlf(s[1..]);
      var rest := ToCrlf(s[1..]);
      if s[0] == LF {
        assert ToCrlf(s)[2..] == rest;
      } else {
        assert ToCrlf(s)[1..] == rest;
        assert s[0] != CR;
      }
    }
  }

  /** A checkout is accepted exactly when it is the committed bytes or, those having no CR, the committed
      bytes with every LF turned into CRLF; what is returned is always the committed bytes. */
  lemma AcceptedIff(raw: seq<Byte>, committed: seq<Byte>, digest: seq<Byte> -> string)
    requires Identifies(digest, committed)
    ensures Canonical(raw, digest(committed), digest).Ok?
      <==> raw == committed || (CR !in committed && raw == ToCrlf(committed))
    ensures Canonical(raw, digest(committed), digest).Ok?
      ==> Canonical(raw, digest(committed), digest).bytes == committed
  {
    if CR !in committed { LfOfCrlf(committed); }
  }

  /** The reported line ending is LF exactly for the committed bytes themselves. */
  lemma ReportedLineEnding(raw: seq<Byte>, committed: seq<Byte>, digest: seq<Byte> -> string)
    requires Identifies(digest, committed) && Canonical(raw, digest(committed), digest).Ok?
    ensures TextIdentity(raw, digest(committed), digest).1.eol == "LF" <==> raw == committed
  {
    AcceptedIff(raw, committed, digest);
    assert "LF" != "CRLF" by { assert |"LF"| != |"CRLF"|; }
  }

  /** Two bytes, of which the second may be missing at the end, break a line the Windows way. */
  predicate IsCrlf(raw: seq<Byte>, i: nat) {
    i + 1 < |raw| && raw[i] == CR && raw[i + 1] == LF
  }

  /** Every line feed follows a carriage return, and every carriage return stands before a line feed. */
  predicate AllCrlf(raw: seq<Byte>) {
    && (forall i :: 0 <= i < |raw| && raw[i] == CR ==> IsCrlf(raw, i))
    && (forall i :: 0 <= i < |raw| && raw[i] == LF ==> i > 0 && raw[i - 1] == CR)
  }

  lemma {:induction false} AllCrlfConverts(raw: seq<Byte>)
    requires AllCrlf(raw)
    ensures CR !in ToLf(raw) && ToCrlf(ToLf(raw)) == raw
    decreases |raw|
  {
    if raw != [] {
      if raw[0] == CR {
        assert IsCrlf(raw, 0);
        var rest := raw[2..];
        forall i | 0 <= i < |rest| && rest[i] == CR ensures IsCrlf(rest, i) { assert IsCrlf(raw, i + 2); }
        forall i | 0 <= i < |rest| && rest[i] == LF ensures i > 0 && rest[i - 1] == CR {
          assert raw[i + 2] == LF && raw[i + 1] == CR;
        }
        AllCrlfConverts(rest);
        assert raw == [CR, LF] + rest;
        assert ([LF] + ToLf(rest))[1..] == ToLf(rest);
      } else {
        var rest := raw[1..];
        forall i | 0 <= i < |rest| && rest[i] == CR ensures IsCrlf(rest, i) { assert IsCrlf(raw, i + 1); }
        forall i | 0 <= i < |rest| && rest[i] == LF ensures i > 0 && rest[i - 1] == CR {
          assert raw[i + 1] == LF && raw[i] == CR;
        }
        AllCrlfConverts(rest);
        assert raw == [raw[0]] + rest;
        assert ([raw[0]] + ToLf(rest))[1..] == ToLf(rest);
      }
    }
  }

  lemma {:induction false} CrlfFormIsAllCrlf(s: seq<Byte>)
    requires CR !in s
    ensures AllCrlf(ToCrlf(s))
    decreases |s|
  {
    if s != [] {
      CrlfFormIsAllCrlf(s[1..]);
      var t, rest := ToCrlf(s), ToCrlf(s[1..]);
      var n := |t| - |rest|;
      forall i | 0 <= i < |t| && t[i] == CR ensures IsCrlf(t, i) {
        if i >= n { assert IsCrlf(rest, i - n); }
      }
      forall i | 0 <= i < |t| && t[i] == LF ensures i > 0 && t[i - 1] == CR {
        if i >= n { assert rest[i - n] == LF; }
      }
    }
  }

  /** A refused checkout is refused for its line endings exactly when they are not Windows line endings
      throughout, and otherwise for its content. */
  lemma RefusedFor(raw: seq<Byte>, expected: string, digest: seq<Byte> -> string)
    requires !Canonical(raw, expected, digest).Ok?
    ensures Canonical(raw, expected, digest) == MixedLineEndings <==> !AllCrlf(raw)
    ensures Canonical(raw, expected, digest) == IdentityMismatch <==> AllCrlf(raw)
  {
    if AllCrlf(raw) {
      AllCrlfConverts(raw);
    } else if CR !in ToLf(raw) && ToCrlf(ToLf(raw)) == raw {
      CrlfFormIsAllCrlf(ToLf(raw));
      assert false;
    }
  }
}
