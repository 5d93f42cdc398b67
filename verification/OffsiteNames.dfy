/**
 The names an off-site point is published under, and why they never collide.
 */
module OffsiteNames {

  const OWNER := ".platform-backup-owner.json"
  const RECEIPT_SUFFIX := ".receipt.json"
  const PARTIAL_SUFFIX := ".partial"

  function Digit(d: nat): char
    requires d < 10
  {
    "0123456789"[d]
  }

  function Decimal(n: nat): (s: string)
    ensures |s| > 0 && forall k :: 0 <= k < |s| ==> '0' <= s[k] <= '9'
  {
    if n < 10 then [Digit(n)] else Decimal(n / 10) + [Digit(n % 10)]
  }

  /** `str(n).zfill(3)`. */
  function Zfill3(n: nat): (s: string)
    ensures |s| >= 3 && '0' <= s[|s| - 1] <= '9'
  {
    var s := Decimal(n);
    if |s| == 1 then "00" + s else if |s| == 2 then "0" + s else s
  }

  function PartName(bundle: string, i: nat): string {
    bundle + ".part" + Zfill3(i)
  }

  function ReceiptName(bundle: string): string {
    bundle + RECEIPT_SUFFIX
  }

  function PartialName(name: string): string {
    name + PARTIAL_SUFFIX
  }

  predicate EndsWith(s: string, suffix: string) {
    |suffix| <= |s| && s[|s| - |suffix|..] == suffix
  }

  predicate IsReceiptName(name: string) {
    EndsWith(name, RECEIPT_SUFFIX)
  }

  lemma DecimalOfSmall(n: nat)
    requires n < 1000
    ensures n < 10 ==> Decimal(n) == [Digit(n)]
    ensures 10 <= n < 100 ==> Decimal(n) == [Digit(n / 10), Digit(n % 10)]
    ensures 100 <= n ==> Decimal(n) == [Digit(n / 100), Digit(n / 10 % 10), Digit(n % 10)]
  {
    if 10 <= n {
      assert Decimal(n) == Decimal(n / 10) + [Digit(n % 10)];
      if 100 <= n {
        assert n / 10 / 10 == n / 100;
        assert Decimal(n / 10) == Decimal(n / 100) + [Digit(n / 10 % 10)];
      }
    }
  }

  /** Below a thousand the padding makes every index three characters wide. */
  lemma Zfill3IsThreeDigits(n: nat)
    requires n < 1000
    ensures Zfill3(n) == [Digit(n / 100), Digit(n / 10 % 10), Digit(n % 10)]
  {
    DecimalOfSmall(n);
    if n < 10 {
      assert n / 100 == 0 && n / 10 == 0;
      assert Zfill3(n) == "00" + [Digit(n)];
    } else if n < 100 {
      assert n / 100 == 0 && n / 10 % 10 == n / 10;
      assert Zfill3(n) == "0" + [Digit(n / 10), Digit(n % 10)];
    }
  }

  /** The value that three digits stand for. */
  function Value3(d: string): int
    requires |d| == 3
  {
    (d[0] as int - '0' as int) * 100 + (d[1] as int - '0' as int) * 10 + (d[2] as int - '0' as int)
  }

  lemma DigitValue(d: nat)
    requires d < 10
    ensures Digit(d) as int - '0' as int == d
  {}

  /** A part is named by its bundle and its number in three digits. */
  lemma PartNameMeans(bundle: string, i: nat) returns (digits: string)
    requires i < 1000
    ensures PartName(bundle, i) == bundle + ".part" + digits && |digits| == 3 && Value3(digits) == i
    ensures ReceiptName(bundle) == bundle + ".receipt.json"
    ensures forall name :: PartialName(name) == name + ".partial"
  {
    digits := Zfill3(i);
    Zfill3IsThreeDigits(i);
    DigitValue(i / 100);
    DigitValue(i / 10 % 10);
    DigitValue(i % 10);
    ThreeDigits(i);
    hide Zfill3, Digit;
  }

  lemma DigitIsInjective(a: nat, b: nat)
    requires a < 10 && b < 10 && Digit(a) == Digit(b)
    ensures a == b
  {}

  lemma Zfill3IsInjective(m: nat, n: nat)
    requires m < 1000 && n < 1000 && Zfill3(m) == Zfill3(n)
    ensures m == n
  {
    Zfill3IsThreeDigits(m);
    Zfill3IsThreeDigits(n);
    hide Zfill3, Decimal, Digit;
    assert Zfill3(m)[0] == Zfill3(n)[0] && Zfill3(m)[1] == Zfill3(n)[1] && Zfill3(m)[2] == Zfill3(n)[2];
    DigitIsInjective(m / 100, n / 100);
    DigitIsInjective(m / 10 % 10, n / 10 % 10);
    DigitIsInjective(m % 10, n % 10);
    ThreeDigits(m);
    ThreeDigits(n);
  }

  lemma ThreeDigits(n: nat)
    ensures n == 100 * (n / 100) + 10 * (n / 10 % 10) + n % 10
  {
    assert n / 10 / 10 == n / 100;
  }

  lemma SameTails(a: string, s: string, b: string, t: string)
    requires a + s == b + t && |s| == |t|
    ensures a == b && s == t
  {
    assert |a| == |b|;
    assert a == (a + s)[..|a|] == (b + t)[..|a|] == b;
    assert s == (a + s)[|a|..] == (b + t)[|a|..] == t;
  }

  lemma PartNamesDiffer(b1: string, i: nat, b2: string, j: nat)
    requires i < 1000 && j < 1000 && PartName(b1, i) == PartName(b2, j)
    ensures b1 == b2 && i == j
  {
    Zfill3IsThreeDigits(i);
    Zfill3IsThreeDigits(j);
    assert PartName(b1, i) == b1 + (".part" + Zfill3(i));
    assert PartName(b2, j) == b2 + (".part" + Zfill3(j));
    SameTails(b1, ".part" + Zfill3(i), b2, ".part" + Zfill3(j));
    SameTails(".part", Zfill3(i), ".part", Zfill3(j));
    Zfill3IsInjective(i, j);
  }

  lemma ReceiptNamesDiffer(b1: string, b2: string)
    requires ReceiptName(b1) == ReceiptName(b2)
    ensures b1 == b2
  {
    SameTails(b1, RECEIPT_SUFFIX, b2, RECEIPT_SUFFIX);
  }

  /** The last letter tells a part, a partial upload and a document apart, and the
      sixth from the end tells the owner marker from a receipt. */
  lemma KindsOfNames(bundle: string, i: nat, name: string)
    ensures IsReceiptName(ReceiptName(bundle))
    ensures !IsReceiptName(PartName(bundle, i)) && !IsReceiptName(OWNER) && !IsReceiptName(PartialName(name))
    ensures PartName(bundle, i) != OWNER && PartName(bundle, i) != PartialName(name)
    ensures ReceiptName(bundle) != OWNER && ReceiptName(bundle) != PartialName(name)
    ensures OWNER != PartialName(name)
  {
    var part, receipt, partial := PartName(bundle, i), ReceiptName(bundle), PartialName(name);
    PartEnding(bundle, i);
    ReceiptNameEnding(bundle);
    LastOf(name, PARTIAL_SUFFIX);
    assert PARTIAL_SUFFIX[|PARTIAL_SUFFIX| - 1] == 'l' && OWNER[|OWNER| - 1] == 'n' && OWNER[|OWNER| - 6] == 'r';
    hide IsReceiptName, PartName, ReceiptName;
    ReceiptEnding(part);
    ReceiptEnding(partial);
    ReceiptEnding(OWNER);
  }

  lemma PartEnding(bundle: string, i: nat)
    ensures PartName(bundle, i) != "" && '0' <= PartName(bundle, i)[|PartName(bundle, i)| - 1] <= '9'
  {
    LastOf(bundle + ".part", Zfill3(i));
  }

  lemma ReceiptNameEnding(bundle: string)
    ensures IsReceiptName(ReceiptName(bundle))
    ensures var receipt := ReceiptName(bundle);
            |receipt| >= 6 && receipt[|receipt| - 1] == 'n' && receipt[|receipt| - 6] == 't'
  {
    var receipt := ReceiptName(bundle);
    assert receipt[|receipt| - |RECEIPT_SUFFIX|..] == RECEIPT_SUFFIX;
    ReceiptEnding(receipt);
  }

  lemma LastOf(a: string, b: string)
    requires b != []
    ensures (a + b)[|a + b| - 1] == b[|b| - 1]
  {}

  lemma ReceiptEnding(s: string)
    ensures IsReceiptName(s) ==> |s| >= 6 && s[|s| - 1] == 'n' && s[|s| - 6] == 't'
  {
    if IsReceiptName(s) {
      var tail := s[|s| - |RECEIPT_SUFFIX|..];
      assert tail == RECEIPT_SUFFIX && tail[|tail| - 1] == s[|s| - 1] && tail[|tail| - 6] == s[|s| - 6];
    }
  }
}
