/**
 * The `mm:ss` label shown under the controls of both surfaces
 * (`formatSecondsTime`). Durations are whole seconds, so `Math.round` of the
 * remainder is the remainder itself; minutes are never truncated.
 *
 * Besides the formatter, the module defines the inverse reading of a label
 * (`ParseClock`) and proves that every label reads back as the duration it
 * was made from.
 */
module TimeFormat {
  import opened Wrappers

  predicate IsDigit(c: char) { '0' <= c <= '9' }

  predicate AllDigits(s: string) { forall i :: 0 <= i < |s| ==> IsDigit(s[i]) }

  function DigitChar(d: nat): (c: char)
    requires d < 10
    ensures IsDigit(c) && c as int - '0' as int == d
  {
    ('0' as int + d) as char
  }

  function DigitValue(c: char): nat
    requires IsDigit(c)
  {
    c as int - '0' as int
  }

  /** Decimal text of `n` as `Number.prototype.toString` writes it. */
  function NatToString(n: nat): (s: string)
    ensures |s| >= 1 && AllDigits(s)
    ensures (s[0] == '0') == (n == 0)
    ensures n < 10 <==> |s| == 1
    ensures n < 100 ==> |s| <= 2
    decreases n
  {
    if n < 10 then [DigitChar(n)] else NatToString(n / 10) + [DigitChar(n % 10)]
  }

  /** The value of a string of decimal digits (the empty string reads as 0). */
  function ParseDecimal(s: string): nat
    requires AllDigits(s)
  {
    if s == [] then 0 else ParseDecimal(s[..|s| - 1]) * 10 + DigitValue(s[|s| - 1])
  }

  /** `String.prototype.padStart(width, fill)` with a one-character fill. */
  function PadStart(s: string, width: nat, fill: char): (r: string)
    ensures |r| == if |s| >= width then |s| else width
    ensures r[|r| - |s|..] == s
    ensures forall i :: 0 <= i < |r| - |s| ==> r[i] == fill
  {
    if |s| >= width then s else seq(width - |s|, _ => fill) + s
  }

  /** One field of the label: `n.toString().padStart(2, '0')`. */
  function Field(n: nat): (f: string)
    ensures AllDigits(f) && ParseDecimal(f) == n
    ensures |f| == if |NatToString(n)| >= 2 then |NatToString(n)| else 2
    ensures n < 100 ==> |f| == 2
  {
    PadNumberReadsBack(n, 2);
    PadStart(NatToString(n), 2, '0')
  }

  /** The label `formatSecondsTime` draws for a duration in whole seconds. */
  function FormatSecondsTime(duration: nat): (r: string)
    ensures |r| >= 5 && r[|r| - 3] == ':'
    ensures r[..|r| - 3] == Field(duration / 60) && r[|r| - 2..] == Field(duration % 60)
  {
    var minutes := Field(duration / 60);
    var seconds := Field(duration % 60);
    SplitAtColon(minutes, seconds);
    minutes + [':'] + seconds
  }

  /**
   * Reads a label back: at least two minute digits, a colon, exactly two
   * second digits below 60.
   */
  function ParseClock(s: string): Option<nat>
  {
    if |s| >= 5 && s[|s| - 3] == ':' && AllDigits(s[..|s| - 3]) && AllDigits(s[|s| - 2..]) then
      var minutes := ParseDecimal(s[..|s| - 3]);
      var seconds := ParseDecimal(s[|s| - 2..]);
      if seconds < 60 then Some(minutes * 60 + seconds) else None
    else
      None
  }

  /** Reading back what `NatToString` wrote gives the number. */
  lemma {:induction false} ParseNatToString(n: nat)
    ensures ParseDecimal(NatToString(n)) == n
    decreases n
  {
    var s := NatToString(n);
    if n < 10 {
      assert s[..|s| - 1] == [];
    } else {
      assert s[..|s| - 1] == NatToString(n / 10);
      ParseNatToString(n / 10);
    }
  }

  /** A run of zeros reads as 0. */
  lemma {:induction false} ParseZeros(k: nat)
    ensures AllDigits(seq(k, _ => '0')) && ParseDecimal(seq(k, _ => '0')) == 0
  {
    if k > 0 {
      assert seq(k, _ => '0')[..k - 1] == seq(k - 1, _ => '0');
      ParseZeros(k - 1);
    }
  }

  /** Zero padding on the left does not change the value read. */
  lemma {:induction false} ParseIgnoresLeadingZeros(k: nat, s: string)
    requires AllDigits(s)
    ensures AllDigits(seq(k, _ => '0') + s)
    ensures ParseDecimal(seq(k, _ => '0') + s) == ParseDecimal(s)
    decreases |s|
  {
    var z := seq(k, _ => '0');
    if s == [] {
      assert z + s == z;
      ParseZeros(k);
    } else {
      var t := z + s;
      assert t[..|t| - 1] == z + s[..|s| - 1];
      assert t[|t| - 1] == s[|s| - 1];
      ParseIgnoresLeadingZeros(k, s[..|s| - 1]);
    }
  }

  /** A padded number reads back as the number. */
  lemma PadNumberReadsBack(n: nat, width: nat)
    ensures AllDigits(PadStart(NatToString(n), width, '0'))
    ensures ParseDecimal(PadStart(NatToString(n), width, '0')) == n
  {
    var s := NatToString(n);
    ParseNatToString(n);
    if |s| < width {
      ParseIgnoresLeadingZeros(width - |s|, s);
    }
  }

  /** The two fields of `a:b` when `b` has two characters. */
  lemma SplitAtColon(a: string, b: string)
    requires |b| == 2
    ensures var r := a + [':'] + b; r[..|r| - 3] == a && r[|r| - 2..] == b
  {
    var r := a + [':'] + b;
    assert r[..|a|] == a;
    assert r[|a| + 1..] == b;
  }

  /**
   * The minutes field is `floor(d / 60)`, padded to two digits and never
   * truncated; the seconds field is exactly two digits holding `d mod 60`.
   */
  lemma FormatFields(duration: nat)
    ensures var r := FormatSecondsTime(duration);
      AllDigits(r[..|r| - 3]) && ParseDecimal(r[..|r| - 3]) == duration / 60 &&
      |r| == 3 + (if |NatToString(duration / 60)| >= 2 then |NatToString(duration / 60)| else 2) &&
      AllDigits(r[|r| - 2..]) && |r[|r| - 2..]| == 2 && ParseDecimal(r[|r| - 2..]) == duration % 60
  {
    var r := FormatSecondsTime(duration);
    var minutes := Field(duration / 60);
    assert r[..|r| - 3] == minutes;
    assert |r| == |minutes| + 3;
  }

  /** A label made of two digit fields reads as minutes times 60 plus seconds. */
  lemma ParseLabel(minutes: string, seconds: string, m: nat, sec: nat)
    requires AllDigits(minutes) && |minutes| >= 2 && ParseDecimal(minutes) == m
    requires AllDigits(seconds) && |seconds| == 2 && ParseDecimal(seconds) == sec && sec < 60
    ensures ParseClock(minutes + [':'] + seconds) == Some(m * 60 + sec)
  {
    SplitAtColon(minutes, seconds);
  }

  lemma DivMod60(duration: nat)
    ensures duration == (duration / 60) * 60 + duration % 60 && duration % 60 < 60
  {
  }

  /** Every label reads back as the duration it shows. */
  lemma FormatRoundTrip(duration: nat)
    ensures ParseClock(FormatSecondsTime(duration)) == Some(duration)
  {
    var m, sec := duration / 60, duration % 60;
    var minutes, seconds := Field(m), Field(sec);
    DivMod60(duration);
    ParseLabel(minutes, seconds, m, sec);
    assert FormatSecondsTime(duration) == minutes + [':'] + seconds;
  }

  /** The label made of two fields. */
  lemma LabelOf(duration: nat, minutes: string, seconds: string)
    requires Field(duration / 60) == minutes && Field(duration % 60) == seconds
    ensures FormatSecondsTime(duration) == minutes + ":" + seconds
  {
  }

  lemma FieldsOfExamples()
    ensures Field(0) == "00" && Field(1) == "01" && Field(5) == "05" && Field(100) == "100"
  {
    assert seq(1, _ => '0') == "0";
    assert NatToString(0) == "0";
    assert NatToString(1) == "1";
    assert NatToString(5) == "5";
    assert NatToString(10) == "10";
    assert NatToString(100) == "100";
  }

  /** Worked values: 65 s, 5 s, and 100 minutes, which keeps three digits. */
  lemma FormatExamples()
    ensures FormatSecondsTime(65) == "01:05"
    ensures FormatSecondsTime(5) == "00:05"
    ensures FormatSecondsTime(6000) == "100:00"
  {
    FieldsOfExamples();
    LabelOf(65, "01", "05");
    LabelOf(5, "00", "05");
    LabelOf(6000, "100", "00");
  }
}
