/** The two clock renderings of the page: the sidebar's relative age of a
    workspace (`timeAgo`) and the creation screen's elapsed timer
    (`formatTime`). The current instant is a parameter. */
module Clock {
  import opened Text

  // ---------------------------------------------------------------------------
  // timeAgo
  // ---------------------------------------------------------------------------

  /** `Math.floor((now - created) / 1000)`: whole seconds elapsed, rounded
      down (so a creation instant in the future gives a negative count). */
  function ElapsedSeconds(nowMs: int, createdMs: int): (s: int)
    ensures 1000 * s <= nowMs - createdMs < 1000 * s + 1000
  {
    (nowMs - createdMs) / 1000
  }

  datatype Unit = Seconds | Minutes | Hours | Days

  /** Seconds per unit. */
  function UnitSize(u: Unit): nat {
    match u
    case Seconds => 1
    case Minutes => 60
    case Hours => 3600
    case Days => 86400
  }

  function UnitLetter(u: Unit): char {
    match u
    case Seconds => 's'
    case Minutes => 'm'
    case Hours => 'h'
    case Days => 'd'
  }

  datatype Age = Age(count: int, unit: Unit)

  /** Multiplying by a positive factor preserves `<=`. */
  lemma MulMono(k: int, x: int, y: int)
    requires k > 0 && x <= y
    ensures k * x <= k * y
  {
    assert k * y - k * x == k * (y - x);
  }

  /** A quotient is the unique `q` with `b * q <= a < b * (q + 1)`. */
  lemma DivUnique(a: int, b: int, q: int)
    requires b > 0 && b * q <= a < b * (q + 1)
    ensures a / b == q
  {
    var d := a / b;
    assert b * d <= a < b * d + b;
    if d < q {
      MulMono(b, d + 1, q);
    } else if d > q {
      MulMono(b, q + 1, d);
    }
  }

  /** A positive factor can be cancelled from a strict inequality. */
  lemma MulLessCancel(k: int, x: int, y: int)
    requires k > 0 && k * x < k * y
    ensures x < y
  {
    if x >= y {
      MulMono(k, y, x);
    }
  }

  /** `floor(floor(a / b) / c) == floor(a / (b * c))` for positive divisors. */
  lemma DivDiv(a: int, b: int, c: int)
    requires b > 0 && c > 0
    ensures (a / b) / c == a / (b * c)
  {
    var q := a / b;
    var p := q / c;
    assert c * p <= q <= c * p + c - 1;
    MulMono(b, c * p, q);
    MulMono(b, q, c * p + c - 1);
    assert b * (c * p + c - 1) + b == (b * c) * (p + 1);
    assert (b * c) * p == b * (c * p);
    DivUnique(a, b * c, p);
  }

  /** The cascade of `timeAgo`: seconds below a minute, then minutes below an
      hour, hours below a day, and days from there on; each count rounded down. */
  function AgeOf(seconds: int): (a: Age)
    ensures a.unit == Seconds <==> seconds < 60
    ensures a.unit == Minutes <==> 60 <= seconds < 3600
    ensures a.unit == Hours <==> 3600 <= seconds < 86400
    ensures a.unit == Days <==> 86400 <= seconds
    ensures a.unit == Seconds ==> a.count == seconds
    ensures a.unit != Seconds ==>
      1 <= a.count && UnitSize(a.unit) * a.count <= seconds < UnitSize(a.unit) * (a.count + 1)
  {
    if seconds < 60 then Age(seconds, Seconds)
    else
      var minutes := seconds / 60;
      if minutes < 60 then Age(minutes, Minutes)
      else
        var hours := minutes / 60;
        DivDiv(seconds, 60, 60);
        if hours < 24 then Age(hours, Hours)
        else
          DivDiv(seconds, 3600, 24);
          Age(hours / 24, Days)
  }

  /** Every shown count except seconds stays below the next unit's size:
      at most 59 minutes, at most 23 hours. */
  lemma AgeCountsBounded(seconds: int)
    ensures AgeOf(seconds).unit == Minutes ==> AgeOf(seconds).count < 60
    ensures AgeOf(seconds).unit == Hours ==> AgeOf(seconds).count < 24
    ensures 0 <= seconds ==> 0 <= AgeOf(seconds).count <= seconds
  {
  }

  /** An older workspace never shows a smaller age in a smaller unit. */
  lemma AgeMonotone(s: int, t: int)
    requires s <= t
    ensures UnitSize(AgeOf(s).unit) <= UnitSize(AgeOf(t).unit)
    ensures AgeOf(s).unit == AgeOf(t).unit ==> AgeOf(s).count <= AgeOf(t).count
  {
    var a := AgeOf(s);
    var b := AgeOf(t);
    if a.unit == b.unit && a.unit != Seconds {
      var u := UnitSize(a.unit);
      assert u * a.count <= s <= t < u * (b.count + 1);
      MulLessCancel(u, a.count, b.count + 1);
    }
  }

  /** `${count}${letter} ago`. */
  function FormatAge(a: Age): (r: string)
    ensures |r| >= 5 && r[|r| - 4..] == " ago"
  {
    IntToString(a.count) + [UnitLetter(a.unit)] + " ago"
  }

  /** `timeAgo(createdAt)` evaluated at instant `nowMs`. */
  function TimeAgo(nowMs: int, createdMs: int): (r: string)
    ensures |r| >= 5 && r[|r| - 4..] == " ago"
  {
    FormatAge(AgeOf(ElapsedSeconds(nowMs, createdMs)))
  }

  function LetterUnit(c: char): Unit
    requires c in "smhd"
  {
    if c == 's' then Seconds else if c == 'm' then Minutes else if c == 'h' then Hours else Days
  }

  /** Reads an age label back: the numeral before the unit letter. */
  function ParseAge(r: string): Age
    requires |r| >= 6 && r[|r| - 5] in "smhd"
    requires r[0] == '-' ==> AllDigits(r[1..|r| - 5])
    requires r[0] != '-' ==> AllDigits(r[..|r| - 5])
  {
    Age(ParseInt(r[..|r| - 5]), LetterUnit(r[|r| - 5]))
  }

  /** The label determines the age it was made from. */
  lemma {:induction false} FormatAgeRoundTrip(a: Age)
    ensures var r := FormatAge(a);
      |r| >= 6 && r[|r| - 5] in "smhd"
      && (r[0] == '-' ==> AllDigits(r[1..|r| - 5]))
      && (r[0] != '-' ==> AllDigits(r[..|r| - 5]))
      && ParseAge(r) == a
  {
    var n := IntToString(a.count);
    var r := FormatAge(a);
    assert r == n + [UnitLetter(a.unit)] + " ago";
    assert r[..|r| - 5] == n;
    assert r[|r| - 5] == UnitLetter(a.unit);
    assert r[0] == n[0];
    assert r[1..|r| - 5] == n[1..];
  }

  /** Fixture ages: the initial workspaces, created 5, 15, 30, 120 and 1
      minutes before `now`, show 5, 15 and 30 minutes, 2 hours and 1
      minute; the two-hour one reads "2h ago". */
  lemma InitialAges(now: int)
    ensures AgeOf(ElapsedSeconds(now, now - 5 * 60 * 1000)) == Age(5, Minutes)
    ensures AgeOf(ElapsedSeconds(now, now - 15 * 60 * 1000)) == Age(15, Minutes)
    ensures AgeOf(ElapsedSeconds(now, now - 30 * 60 * 1000)) == Age(30, Minutes)
    ensures AgeOf(ElapsedSeconds(now, now - 2 * 60 * 60 * 1000)) == Age(2, Hours)
    ensures AgeOf(ElapsedSeconds(now, now - 1 * 60 * 1000)) == Age(1, Minutes)
    ensures TimeAgo(now, now - 2 * 60 * 60 * 1000) == "2h ago"
  {
    assert ElapsedSeconds(now, now - 5 * 60 * 1000) == 300;
    assert ElapsedSeconds(now, now - 15 * 60 * 1000) == 900;
    assert ElapsedSeconds(now, now - 30 * 60 * 1000) == 1800;
    assert ElapsedSeconds(now, now - 2 * 60 * 60 * 1000) == 7200;
    assert ElapsedSeconds(now, now - 1 * 60 * 1000) == 60;
  }

  // ---------------------------------------------------------------------------
  // formatTime
  // ---------------------------------------------------------------------------

  /** `s.padStart(2, "0")`. */
  function PadTwo(s: string): (r: string)
    ensures |r| == if |s| >= 2 then |s| else 2
    ensures r[|r| - |s|..] == s
    ensures forall i :: 0 <= i < |r| - |s| ==> r[i] == '0'
  {
    if |s| >= 2 then s else seq(2 - |s|, _ => '0') + s
  }

  /** `${mins}:${secs.padStart(2, "0")}` for a non-negative elapsed count. */
  function FormatTime(seconds: nat): (r: string)
    ensures |r| >= 4
    ensures Occurrences(r, ':') == 1
  {
    var r := NatToString(seconds / 60) + ":" + PadTwo(NatToString(seconds % 60));
    OccurrencesConcat(NatToString(seconds / 60), ":", ':');
    OccurrencesConcat(NatToString(seconds / 60) + ":", PadTwo(NatToString(seconds % 60)), ':');
    r
  }

  /** Minutes before the colon, two-digit seconds after it. */
  function ParseClock(r: string): (seconds: nat)
    requires AllDigits(Split(r, ':')[0])
    requires Occurrences(r, ':') == 1 && AllDigits(Split(r, ':')[1])
  {
    60 * ParseDigits(Split(r, ':')[0]) + ParseDigits(Split(r, ':')[1])
  }

  /** A leading zero adds nothing to a numeral's value. */
  lemma LeadingZero(s: string)
    requires AllDigits(s)
    ensures AllDigits("0" + s) && ParseDigits("0" + s) == ParseDigits(s)
    decreases |s|
  {
    if |s| > 0 {
      var t := "0" + s;
      assert t[..|t| - 1] == "0" + s[..|s| - 1];
      LeadingZero(s[..|s| - 1]);
    }
  }

  /** The seconds field is two digits that read back as the seconds past
      the minute. */
  lemma PaddedSeconds(seconds: nat)
    ensures var p := PadTwo(NatToString(seconds % 60));
      |p| == 2 && AllDigits(p) && ParseDigits(p) == seconds % 60 && ':' !in p
  {
    var s := NatToString(seconds % 60);
    var p := PadTwo(s);
    assert |s| <= 2 by {
      if seconds % 60 >= 10 {
        assert |NatToString(seconds % 60 / 10)| == 1;
      }
    }
    if |s| < 2 {
      assert p == "0" + s;
      LeadingZero(s);
    }
  }

  /** The timer reads back as the number of seconds it shows, and the part
      after the colon is always exactly two digits. */
  lemma {:induction false} FormatTimeRoundTrip(seconds: nat)
    ensures var parts := Split(FormatTime(seconds), ':');
      |parts| == 2
      && parts[0] == NatToString(seconds / 60)
      && |parts[1]| == 2 && AllDigits(parts[1])
      && ParseClock(FormatTime(seconds)) == seconds
  {
    var m := NatToString(seconds / 60);
    var p := PadTwo(NatToString(seconds % 60));
    PaddedSeconds(seconds);
    assert ':' !in m;
    SplitJoin([m, p], ':');
    assert Join([m, p], ':') == FormatTime(seconds) by {
      assert Join([p], ':') == p;
    }
  }
}
