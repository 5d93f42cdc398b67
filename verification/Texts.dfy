/**
 Text conventions that several parts of the platform share.  Each stands as the test that
 the code makes and as what it means on the characters of the text.
 */
module Texts {

  predicate AlphaNumeric(c: char) {
    'a' <= c <= 'z' || '0' <= c <= '9'
  }

  const LETTERS := "abcdefghijklmnopqrstuvwxyz"
  const DIGITS := "0123456789"

  lemma LetterMeans(c: char)
    ensures c in LETTERS <==> 'a' <= c <= 'z'
  {
    if 'a' <= c <= 'z' {
      assert LETTERS[(c - 'a') as int] == c;
    }
  }

  lemma DigitMeans(c: char)
    ensures c in DIGITS <==> '0' <= c <= '9'
  {
    if '0' <= c <= '9' {
      assert DIGITS[(c - '0') as int] == c;
    }
  }

  lemma AlphaNumericMeans(c: char)
    ensures AlphaNumeric(c) <==> c in LETTERS || c in DIGITS
  {
    LetterMeans(c);
    DigitMeans(c);
  }

  /** `[a-z0-9][a-z0-9-]{15,127}`, matched in full: the name of an operation or a job. */
  predicate OperationName(op: string) {
    && 16 <= |op| <= 128
    && AlphaNumeric(op[0])
    && forall k :: 0 <= k < |op| ==> AlphaNumeric(op[k]) || op[k] == '-'
  }

  lemma OperationNameMeans(op: string)
    ensures OperationName(op) <==>
              && 16 <= |op| <= 128 && op[0] != '-'
              && forall c :: c in op ==> c in LETTERS || c in DIGITS || c == '-'
  {
    forall c ensures AlphaNumeric(c) <==> c in LETTERS || c in DIGITS {
      AlphaNumericMeans(c);
    }
    assert AlphaNumeric('-') ==> false;
    hide AlphaNumeric;
    if |op| > 0 { assert op[0] in op; }
    if OperationName(op) {
      forall c | c in op ensures c in LETTERS || c in DIGITS || c == '-' {
        var k :| 0 <= k < |op| && op[k] == c;
      }
    }
  }

  // ---------------------------------------------------------------- digests

  predicate Hex(c: char) {
    '0' <= c <= '9' || 'a' <= c <= 'f'
  }

  /** `[a-f0-9]{64}`, matched in full. */
  predicate Hex64(s: string) {
    |s| == 64 && forall k :: 0 <= k < |s| ==> Hex(s[k])
  }

  /** Sixty-four lower-case hexadecimal digits. */
  ghost predicate IsDigestText(s: string) {
    |s| == 64 && forall c :: c in s ==> c in "0123456789abcdef"
  }

  lemma HexMeans(c: char)
    ensures Hex(c) <==> c in "0123456789abcdef"
  {
    var all := "0123456789abcdef";
    if '0' <= c <= '9' {
      assert all[(c - '0') as int] == c;
    } else if 'a' <= c <= 'f' {
      assert all[(c - 'a') as int + 10] == c;
    }
  }

  lemma Hex64Means(s: string)
    ensures Hex64(s) <==> IsDigestText(s)
  {
    forall c ensures Hex(c) <==> c in "0123456789abcdef" {
      HexMeans(c);
    }
    hide Hex;
    if Hex64(s) {
      forall c | c in s ensures c in "0123456789abcdef" {
        var k :| 0 <= k < |s| && s[k] == c;
      }
    }
  }

  // ---------------------------------------------------------------- identifiers

  /** A lower-case letter, then such letters, digits and dashes: as a set of characters. */
  ghost predicate IsIdText(s: string, longest: nat) {
    && 2 <= |s| <= longest && s[0] in LETTERS
    && forall c :: c in s ==> c in LETTERS || c in DIGITS || c == '-'
  }

  lemma PrefixMeans(a: string, b: string)
    ensures a <= b <==> exists rest: string :: b == a + rest
  {
    if a <= b {
      assert b == a + b[|a|..];
    }
  }

  // ---------------------------------------------------------------- order

  /** Code-point order on strings. */
  predicate Lexicographic(a: string, b: string) {
    b != [] && (a == [] || a[0] < b[0] || (a[0] == b[0] && Lexicographic(a[1..], b[1..])))
  }

  /** The texts agree up to some place, where the first ends or has the smaller character. */
  ghost predicate DiffersAt(a: string, b: string, n: nat) {
    && n <= |a| && n < |b| && a[..n] == b[..n]
    && (n == |a| || a[n] < b[n])
  }

  lemma {:induction false} LexicographicMeans(a: string, b: string)
    ensures Lexicographic(a, b) <==> exists n: nat :: DiffersAt(a, b, n)
  {
    if a != [] && b != [] {
      LexicographicMeans(a[1..], b[1..]);
      if a[0] < b[0] {
        assert DiffersAt(a, b, 0);
      }
      if a[0] == b[0] && Lexicographic(a[1..], b[1..]) {
        var n: nat :| DiffersAt(a[1..], b[1..], n);
        assert a[..n + 1] == [a[0]] + a[1..][..n] && b[..n + 1] == [b[0]] + b[1..][..n];
        assert DiffersAt(a, b, n + 1);
      }
      if exists n: nat :: DiffersAt(a, b, n) {
        var n: nat :| DiffersAt(a, b, n);
        if n > 0 {
          assert a[0] == a[..n][0] == b[..n][0] == b[0];
          assert a[1..][..n - 1] == a[..n][1..] && b[1..][..n - 1] == b[..n][1..];
          assert DiffersAt(a[1..], b[1..], n - 1);
        }
      }
    } else if b != [] {
      assert DiffersAt(a, b, 0);
    }
  }

  lemma {:induction false} LexicographicIsTotal(a: string, b: string)
    ensures Lexicographic(a, b) || a == b || Lexicographic(b, a)
    ensures !(Lexicographic(a, b) && Lexicographic(b, a)) && !Lexicographic(a, a)
  {
    if a != [] && b != [] {
      LexicographicIsTotal(a[1..], b[1..]);
      LexicographicIsTotal(a[1..], a[1..]);
      assert a == [a[0]] + a[1..] && b == [b[0]] + b[1..];
    } else if a != [] {
      LexicographicIsTotal(a[1..], a[1..]);
    }
  }

  lemma {:induction false} LexicographicIsTransitive(a: string, b: string, c: string)
    requires Lexicographic(a, b) && Lexicographic(b, c)
    ensures Lexicographic(a, c)
  {
    if a != [] && a[0] == b[0] && b[0] == c[0] {
      LexicographicIsTransitive(a[1..], b[1..], c[1..]);
    }
  }
}
