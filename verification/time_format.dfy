/** `formatTime` of the mock-test page: seconds shown as minutes and two-digit seconds. */
module TimeFormat {
  import opened Wrappers
  import opened Text

  /** `s.padStart(2, '0')`: zeros in front until the string has two characters. */
  function PadStart2(s: string): (r: string)
    ensures |r| == if |s| < 2 then 2 else |s|
    ensures r[|r| - |s|..] == s
    ensures forall i :: 0 <= i < |r| - |s| ==> r[i] == '0'
  {
    if |s| >= 2 then s else seq(2 - |s|, _ => '0') + s
  }

  /** Numbers below 100 have at most two digits. */
  lemma DecimalBelow100(n: nat)
    requires n < 100
    ensures |Decimal(n)| <= 2
  {
    if n >= 10 {
      assert n / 10 < 10;
    }
  }

  /** `${Math.floor(seconds / 60)}:${(seconds % 60).toString().padStart(2, '0')}` */
  function FormatTime(seconds: nat): (r: string)
    ensures |r| >= 4 && r[|r| - 3] == ':'
    ensures AllDigits(r[..|r| - 3]) && AllDigits(r[|r| - 2..])
  {
    var minutes := Decimal(seconds / 60);
    var secs := PadStart2(Decimal(seconds % 60));
    DecimalBelow100(seconds % 60);
    var r := minutes + ":" + secs;
    assert r[..|r| - 3] == minutes;
    assert r[|r| - 2..] == secs;
    r
  }

  /** Reads an "m:ss" display back into seconds; None when `t` is not of that shape. */
  function ParseTime(t: string): (r: Option<nat>) {
    if |t| >= 4 && t[|t| - 3] == ':' && AllDigits(t[..|t| - 3]) && AllDigits(t[|t| - 2..])
    then Some(ParseDecimal(t[..|t| - 3]) * 60 + ParseDecimal(t[|t| - 2..]))
    else None
  }

  /** The minutes field reads back as `seconds / 60` and the seconds field as `seconds % 60`. */
  lemma FormatTimeFields(seconds: nat)
    ensures var r := FormatTime(seconds);
      && ParseDecimal(r[..|r| - 3]) == seconds / 60
      && ParseDecimal(r[|r| - 2..]) == seconds % 60
      && ParseDecimal(r[|r| - 2..]) < 60
  {
    var minutes, secs := Decimal(seconds / 60), Decimal(seconds % 60);
    var r := FormatTime(seconds);
    ParseDecimalOfDecimal(seconds / 60);
    ParseDecimalOfDecimal(seconds % 60);
    assert |secs| <= 2 by {
      if seconds % 60 >= 10 {
        assert secs == Decimal(seconds % 60 / 10) + [DigitChar(seconds % 60 % 10)];
      }
    }
    var padded := PadStart2(secs);
    assert r == minutes + ":" + padded;
    assert r[..|r| - 3] == minutes;
    assert r[|r| - 2..] == padded;
    if |secs| == 1 {
      assert padded == ['0'] + secs;
      assert padded[..1] == ['0'];
      assert padded[..|padded| - 1] == ['0'];
      assert secs[..0] == [];
    }
  }

  /** Formatting then reading back gives the number of seconds: minutes * 60 + seconds. */
  lemma FormatTimeRoundTrip(seconds: nat)
    ensures ParseTime(FormatTime(seconds)) == Some(seconds)
  {
    FormatTimeFields(seconds);
  }

  /** Two different countdown values never show the same display. */
  lemma FormatTimeInjective(a: nat, b: nat)
    requires FormatTime(a) == FormatTime(b)
    ensures a == b
  {
    FormatTimeRoundTrip(a);
    FormatTimeRoundTrip(b);
  }

  /** One hour, one minute and one second shows as "61:01"; zero as "0:00". */
  lemma FormatTimeExamples()
    ensures FormatTime(3661) == "61:01"
    ensures FormatTime(0) == "0:00"
  {
    assert 3661 / 60 == 61 && 3661 % 60 == 1;
    assert Decimal(61) == "61" by {
      assert 61 / 10 == 6 && 61 % 10 == 1;
      assert Decimal(6) == [DigitChar(6)] == "6";
    }
    assert Decimal(1) == "1" && Decimal(0) == "0";
    assert PadStart2("1") == "01" && PadStart2("0") == "00";
  }
}
