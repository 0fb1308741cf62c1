/**
 * The object name the paste handler gives each uploaded image:
 * the text "image-", the millisecond timestamp in decimal (as a template
 * literal prints a non-negative integer), and the file's extension.
 */
module ObjectName {
  import opened FileExtension

  predicate IsDigit(c: char)
  {
    '0' <= c <= '9'
  }

  predicate AllDigits(s: string)
  {
    forall k :: 0 <= k < |s| ==> IsDigit(s[k])
  }

  function DigitChar(d: nat): (c: char)
    requires d < 10
  {
    ('0' as int + d) as char
  }

  function DigitValue(c: char): nat
    requires IsDigit(c)
  {
    c as int - '0' as int
  }

  /** The decimal text of `n`: at least one digit, no leading zero. */
  function Decimal(n: nat): (r: string)
    ensures |r| >= 1 && AllDigits(r)
    ensures |r| > 1 ==> r[0] != '0'
  {
    if n < 10 then [DigitChar(n)]
    else Decimal(n / 10) + [DigitChar(n % 10)]
  }

  /** The number a string of digits denotes. */
  function DecimalValue(s: string): nat
    requires AllDigits(s)
  {
    if |s| == 0 then 0
    else DecimalValue(s[..|s| - 1]) * 10 + DigitValue(s[|s| - 1])
  }

  /** Reading back the decimal text gives the number: the text determines it. */
  lemma {:induction false} DecimalRoundTrip(n: nat)
    ensures DecimalValue(Decimal(n)) == n
  {
    if n >= 10 {
      DecimalRoundTrip(n / 10);
      var r := Decimal(n);
      assert r[..|r| - 1] == Decimal(n / 10);
    }
  }

  lemma DecimalInjective(a: nat, b: nat)
    requires Decimal(a) == Decimal(b)
    ensures a == b
  {
    DecimalRoundTrip(a);
    DecimalRoundTrip(b);
  }

  /** `image-${timestamp}${getFileExtension(file.name)}`. */
  function ImageObjectName(timestamp: nat, fileName: string): string
  {
    "image-" + Decimal(timestamp) + GetFileExtension(fileName)
  }

  /** An extension never starts with a digit: it is "" or begins with a dot. */
  lemma ExtensionStartsWithDot(fileName: string)
    ensures GetFileExtension(fileName) == "" || GetFileExtension(fileName)[0] == '.'
  {
  }

  /** A run of digits followed by "" or by text starting with a dot splits in one way only. */
  lemma DigitsThenDotUnique(d1: string, e1: string, d2: string, e2: string)
    requires AllDigits(d1) && AllDigits(d2)
    requires e1 == "" || e1[0] == '.'
    requires e2 == "" || e2[0] == '.'
    requires d1 + e1 == d2 + e2
    ensures d1 == d2 && e1 == e2
  {
    assert d1 == (d1 + e1)[..|d1|];
    assert d2 == (d2 + e2)[..|d2|];
  }

  /** A name made of the prefix, digits and a dot-led (or empty) tail
      determines its digits and its tail. */
  lemma PrefixedNameUnique(d1: string, e1: string, d2: string, e2: string)
    requires AllDigits(d1) && AllDigits(d2)
    requires e1 == "" || e1[0] == '.'
    requires e2 == "" || e2[0] == '.'
    requires "image-" + d1 + e1 == "image-" + d2 + e2
    ensures d1 == d2 && e1 == e2
  {
    assert ("image-" + d1 + e1)[6..] == d1 + e1;
    assert ("image-" + d2 + e2)[6..] == d2 + e2;
    DigitsThenDotUnique(d1, e1, d2, e2);
  }

  /** Two object names coincide exactly when the timestamps are equal and the
      extensions are equal: different milliseconds never collide, and two files
      with the same extension in the same millisecond always do. */
  lemma ObjectNamesCollideIff(t1: nat, n1: string, t2: nat, n2: string)
    ensures ImageObjectName(t1, n1) == ImageObjectName(t2, n2) <==>
            t1 == t2 && GetFileExtension(n1) == GetFileExtension(n2)
  {
    var d1, e1 := Decimal(t1), GetFileExtension(n1);
    var d2, e2 := Decimal(t2), GetFileExtension(n2);
    if ImageObjectName(t1, n1) == ImageObjectName(t2, n2) {
      ExtensionStartsWithDot(n1);
      ExtensionStartsWithDot(n2);
      PrefixedNameUnique(d1, e1, d2, e2);
      DecimalInjective(t1, t2);
    }
  }

  /** Two different PNG files pasted in the same millisecond get the same name. */
  lemma SameMillisecondCollision(t: nat)
    ensures ImageObjectName(t, "a.png") == ImageObjectName(t, "b.png")
  {
    var a, b := "a.png", "b.png";
    assert a[2..] == "png" && a[1] == '.';
    assert b[2..] == "png" && b[1] == '.';
    ExtensionFromLastDot(a, "png");
    ExtensionFromLastDot(b, "png");
  }

  /** The examples that motivate the naming scheme; a dot-free name keeps
      its whole text as the extension. */
  lemma ObjectNameExamples(t: nat)
    ensures ImageObjectName(t, "photo.PNG") == "image-" + Decimal(t) + ".PNG"
    ensures ImageObjectName(t, "blob") == "image-" + Decimal(t) + ".blob"
  {
    ExtensionOfPhoto("photo.PNG");
    ExtensionWithoutDot();
  }
}
