/**
 * The two time helpers of the parser: `prettyTimeStamp`, which lays out a
 * "YYYYMMDDhhmmss" stamp for display, and `durationTime`, which shows a
 * number of seconds as "hh:mm:ss" or as days.
 */
module TimeFormat {
  import opened PhpStrings

  /** "YYYYMMDDhhmmss" shown as "YYYY/MM/DD  hh:mm:ss"; a short stamp gives shorter pieces. */
  function PrettyTimeStamp(t: string): (r: string)
    ensures |r| == 6 + (if |t| < 14 then |t| else 14)
  {
    SubstrLength(t, 0, 4);
    SubstrLength(t, 4, 2);
    SubstrLength(t, 6, 2);
    SubstrLength(t, 8, 2);
    SubstrLength(t, 10, 2);
    SubstrLength(t, 12, 2);
    Substr(t, 0, 4) + "/" + Substr(t, 4, 2) + "/" + Substr(t, 6, 2) + "  "
      + Substr(t, 8, 2) + ":" + Substr(t, 10, 2) + ":" + Substr(t, 12, 2)
  }

  lemma SubstrLength(s: string, start: nat, len: nat)
    ensures |Substr(s, start, len)| == if start >= |s| then 0 else if start + len <= |s| then len else |s| - start
  {
  }

  /** The fourteen stamp characters of a displayed time stamp, separators dropped. */
  function StampDigits(r: string): string
    requires |r| == 20
  {
    r[..4] + r[5..7] + r[8..10] + r[12..14] + r[15..17] + r[18..]
  }

  /** A full stamp is laid out with its separators in place, and dropping them gives the stamp back. */
  lemma PrettyTimeStampRoundTrip(t: string)
    requires |t| == 14
    ensures var r := PrettyTimeStamp(t);
      && |r| == 20
      && r[4] == '/' && r[7] == '/' && r[10] == ' ' && r[11] == ' ' && r[14] == ':' && r[17] == ':'
      && StampDigits(r) == t
  {
    var r := PrettyTimeStamp(t);
    FullStampPieces(t);
    assert StampDigits(r) == t[..4] + t[4..6] + t[6..8] + t[8..10] + t[10..12] + t[12..14];
    assert t == t[..4] + t[4..6] + t[6..8] + t[8..10] + t[10..12] + t[12..14];
  }

  lemma FullStampPieces(t: string)
    requires |t| == 14
    ensures PrettyTimeStamp(t) == t[..4] + "/" + t[4..6] + "/" + t[6..8] + "  " + t[8..10] + ":" + t[10..12] + ":" + t[12..14]
  {
    assert Substr(t, 0, 4) == t[..4] && Substr(t, 4, 2) == t[4..6] && Substr(t, 6, 2) == t[6..8];
    assert Substr(t, 8, 2) == t[8..10] && Substr(t, 10, 2) == t[10..12] && Substr(t, 12, 2) == t[12..14];
  }

  /** `str_pad($n, 2, "0", STR_PAD_LEFT)`. */
  function Pad2(s: string): string {
    PadLeft(s, 2, '0')
  }

  /**
   * `durationTime($t)` for a whole number of seconds: below a day the hours,
   * minutes and seconds padded to two digits, up to two days "1 day", and
   * from then on the whole number of days.
   */
  function DurationTime(t: int): (r: string)
    ensures 0 <= t < 86400 ==> r == Clock(t / 3600, (t / 60) % 60, t % 60)
    ensures 86400 <= t < 2 * 86400 ==> r == "1 day"
    ensures t >= 2 * 86400 ==>
      |r| > 5 && r[|r| - 5..] == " days" && AllDigits(r[..|r| - 5]) && ParseNat(r[..|r| - 5]) == t / 86400
  {
    ShortClocks(t);
    if t < 60 then
      "00:00:" + Pad2(IntToString(t))
    else if t < 3600 then
      "00:" + Pad2(IntToString(t / 60)) + ":" + Pad2(IntToString(t % 60))
    else if t < 86400 then
      Pad2(IntToString(t / 3600)) + ":" + Pad2(IntToString((t / 60) % 60)) + ":" + Pad2(IntToString(t % 60))
    else if t < 2 * 86400 then "1 day"
    else
      var days := IntToString(t / 86400);
      ParseNatToString(t / 86400);
      assert (days + " days")[..|days|] == days && (days + " days")[|days|..] == " days";
      days + " days"
  }

  /** A number below 100 padded to two digits reads back as itself. */
  lemma TwoDigits(n: int)
    ensures 0 <= n < 100 ==> |Pad2(IntToString(n))| == 2 && AllDigits(Pad2(IntToString(n)))
                             && ParseNat(Pad2(IntToString(n))) == n
  {
    if 0 <= n < 100 {
      var s := NatToString(n);
      ParseNatToString(n);
      if n < 10 {
        var p := "0" + s;
        assert Pad2(IntToString(n)) == p;
        assert p[..1] == "0";
        assert ParseNat(p[..1]) == 0;
      } else {
        assert |NatToString(n / 10)| == 1;
      }
    }
  }

  /** The seconds an "hh:mm:ss" text stands for. */
  function ClockSeconds(r: string): nat
    requires |r| == 8 && AllDigits(r[..2]) && AllDigits(r[3..5]) && AllDigits(r[6..])
  {
    3600 * ParseNat(r[..2]) + 60 * ParseNat(r[3..5]) + ParseNat(r[6..])
  }

  /** Hours, minutes and seconds, each padded to two digits. */
  function Clock(h: nat, m: nat, s: nat): string {
    Pad2(IntToString(h)) + ":" + Pad2(IntToString(m)) + ":" + Pad2(IntToString(s))
  }

  lemma {:induction false} ClockReadsBack(h: nat, m: nat, s: nat)
    requires h < 100 && m < 100 && s < 100
    ensures var r := Clock(h, m, s);
      |r| == 8 && AllDigits(r[..2]) && AllDigits(r[3..5]) && AllDigits(r[6..])
      && ClockSeconds(r) == 3600 * h + 60 * m + s
  {
    TwoDigits(h);
    TwoDigits(m);
    TwoDigits(s);
    var r := Clock(h, m, s);
    assert r[..2] == Pad2(IntToString(h)) && r[3..5] == Pad2(IntToString(m)) && r[6..] == Pad2(IntToString(s));
  }

  /** Below an hour the clock of `t` is the text of the first two branches. */
  lemma ShortClocks(t: int)
    ensures 0 <= t < 60 ==> Clock(t / 3600, (t / 60) % 60, t % 60) == "00:00:" + Pad2(IntToString(t))
    ensures 60 <= t < 3600 ==>
      Clock(t / 3600, (t / 60) % 60, t % 60) == "00:" + Pad2(IntToString(t / 60)) + ":" + Pad2(IntToString(t % 60))
  {
    if 0 <= t < 3600 {
      ShortFields(t);
      if t < 60 {
        ZeroClock(0, t);
      } else {
        ZeroClock(t / 60, t % 60);
      }
    }
  }

  /** A clock with zero hours starts with "00:"; with zero minutes as well, with "00:00:". */
  lemma ZeroClock(m: nat, s: nat)
    ensures Clock(0, m, s) == "00:" + Pad2(IntToString(m)) + ":" + Pad2(IntToString(s))
    ensures m == 0 ==> Clock(0, m, s) == "00:00:" + Pad2(IntToString(s))
  {
    PaddedZero();
    var z := Pad2(IntToString(0));
    assert z + ":" == "00:";
    if m == 0 {
      assert "00:" + z + ":" == "00:00:";
    }
  }

  lemma PaddedZero()
    ensures Pad2(IntToString(0)) == "00"
  {
    assert IntToString(0) == NatToString(0) == ['0'];
  }

  /** Below an hour the hours field is zero, and below a minute so is the minutes field. */
  lemma ShortFields(t: int)
    requires 0 <= t < 86400
    ensures t < 3600 ==> t / 3600 == 0 && (t / 60) % 60 == t / 60
    ensures t < 60 ==> (t / 60) % 60 == 0 && t % 60 == t
  {
  }

  /** Below one day the duration is a clock text that reads back as the same number of seconds. */
  lemma DurationClockRoundTrip(t: int)
    requires 0 <= t < 86400
    ensures var r := DurationTime(t);
      |r| == 8 && AllDigits(r[..2]) && AllDigits(r[3..5]) && AllDigits(r[6..]) && ClockSeconds(r) == t
  {
    ClockReadsBack(t / 3600, (t / 60) % 60, t % 60);
    ClockArithmetic(t);
  }

  lemma ClockArithmetic(t: int)
    requires 0 <= t < 86400
    ensures 3600 * (t / 3600) + 60 * ((t / 60) % 60) + t % 60 == t && t / 3600 < 24
  {
    var q, s := t / 60, t % 60;
    assert t == 60 * q + s;
    var h, m := q / 60, q % 60;
    assert q == 60 * h + m;
    assert t == 3600 * h + (60 * m + s) && 0 <= 60 * m + s < 3600;
    assert t / 3600 == h;
  }

  /** Two days and more are counted in whole days, and the count reads back as the days elapsed. */
  lemma DurationDays(t: int)
    requires t >= 2 * 86400
    ensures var r := DurationTime(t);
      var count := r[..|r| - 5];
      && r == count + " days" && AllDigits(count) && ParseNat(count) == t / 86400 && ParseNat(count) >= 2
  {
  }
}
