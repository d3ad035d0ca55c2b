/**
 do_updatedb decides with string comparisons alone whether a certificate has expired. Here those comparisons are
 set against the dates that the strings stand for.
 */
module Expiry {
  // strcmp: negative, zero or positive
  function Compare(a: string, b: string): int {
    if a == [] && b == [] then 0
    else if a == [] then -1
    else if b == [] then 1
    else if a[0] != b[0] then (if a[0] < b[0] then -1 else 1)
    else Compare(a[1..], b[1..])
  }

  // strncmp(s, "49", 2) <= 0
  predicate After2000(s: string) {
    Compare(if |s| < 2 then s else s[..2], "49") <= 0
  }

  // The decision for a row that is still valid
  predicate MarksExpired(date: string, now: string) {
    if After2000(date) == After2000(now) then Compare(date, now) <= 0
    else !After2000(date)
  }

  // ----- Dates -----

  predicate Digits(s: string, n: nat) {
    n <= |s| && forall i :: 0 <= i < n ==> '0' <= s[i] <= '9'
  }

  // YYMMDDhhmmssZ
  predicate IsUtcTime(s: string) {
    |s| == 13 && Digits(s, 12) && s[12] == 'Z'
  }

  // YYYYMMDDhhmmssZ
  predicate IsGeneralizedTime(s: string) {
    |s| == 15 && Digits(s, 14) && s[14] == 'Z'
  }

  // The number written in the two digits from position i on
  function Pair(s: string, i: nat): (n: nat)
    requires i + 2 <= |s| && '0' <= s[i] <= '9' && '0' <= s[i + 1] <= '9'
    ensures n <= 99
  {
    (s[i] as int - '0' as int) * 10 + (s[i + 1] as int - '0' as int)
  }

  datatype Moment = Moment(year: int, month: int, day: int, hour: int, minute: int, second: int)

  // The two-digit-year rule of section 4.1.2.5.1 of RFC 5280
  function FullYear(yy: nat): int {
    if yy >= 50 then 1900 + yy else 2000 + yy
  }

  // The date and the minute at the start of a text, with a second from elsewhere
  function MinuteMoment(s: string, second: int): Moment
    requires Digits(s, 10)
  {
    Moment(FullYear(Pair(s, 0)), Pair(s, 2), Pair(s, 4), Pair(s, 6), Pair(s, 8), second)
  }

  // The date at the start of a text in the form of a UTCTime
  function UtcMoment(s: string): Moment
    requires Digits(s, 12)
  {
    MinuteMoment(s, Pair(s, 10))
  }

  function GeneralizedMoment(s: string): Moment
    requires Digits(s, 14)
  {
    Moment(Pair(s, 0) * 100 + Pair(s, 2), Pair(s, 4), Pair(s, 6), Pair(s, 8), Pair(s, 10), Pair(s, 12))
  }

  predicate NotLater(a: Moment, b: Moment) {
    if a.year != b.year then a.year < b.year
    else if a.month != b.month then a.month < b.month
    else if a.day != b.day then a.day < b.day
    else if a.hour != b.hour then a.hour < b.hour
    else if a.minute != b.minute then a.minute < b.minute
    else a.second <= b.second
  }

  // ----- The comparison of texts is a comparison of their pairs of digits -----

  lemma CompareByPair(a: string, b: string)
    requires Digits(a, 2) && Digits(b, 2)
    ensures Pair(a, 0) < Pair(b, 0) ==> Compare(a, b) < 0
    ensures Pair(a, 0) > Pair(b, 0) ==> Compare(a, b) > 0
    ensures Pair(a, 0) == Pair(b, 0) ==> Compare(a, b) == Compare(a[2..], b[2..])
  {
    if a[0] == b[0] {
      assert Compare(a, b) == Compare(a[1..], b[1..]);
      assert a[1..][1..] == a[2..] && b[1..][1..] == b[2..];
    }
  }

  lemma SideOfYear(s: string)
    requires Digits(s, 2)
    ensures After2000(s) <==> Pair(s, 0) <= 49
  {
    var yy := s[..2];
    CompareByPair(yy, "49");
    assert yy[2..] == [] && "49"[2..] == [];
  }

  // From position i to position n the pairs decide one after the other, and what follows them decides a tie.
  predicate PairsNotAfter(a: string, b: string, i: nat, n: nat, tie: bool)
    requires Digits(a, n) && Digits(b, n) && i % 2 == n % 2 == 0
    decreases n - i
  {
    if i >= n then tie
    else if Pair(a, i) != Pair(b, i) then Pair(a, i) < Pair(b, i)
    else PairsNotAfter(a, b, i + 2, n, tie)
  }

  lemma {:induction false} CompareByPairs(a: string, b: string, i: nat, n: nat, tie: bool)
    requires Digits(a, n) && Digits(b, n) && i <= n && i % 2 == n % 2 == 0
    requires Compare(a[n..], b[n..]) <= 0 <==> tie
    ensures Compare(a[i..], b[i..]) <= 0 <==> PairsNotAfter(a, b, i, n, tie)
    decreases n - i
  {
    if i < n {
      CompareByPair(a[i..], b[i..]);
      assert a[i..][2..] == a[i + 2..] && b[i..][2..] == b[i + 2..];
      CompareByPairs(a, b, i + 2, n, tie);
    }
  }

  lemma PairsAreFields(a: string, b: string, n: nat, tie: bool, second: int)
    requires (n == 10 || n == 12) && Digits(a, n) && Digits(b, 12)
    requires (Pair(a, 0) <= 49) == (Pair(b, 0) <= 49)
    requires n == 10 ==> tie == (second <= Pair(b, 10))
    requires n == 12 ==> tie && second == Pair(a, 10)
    ensures PairsNotAfter(a, b, 0, n, tie) <==> NotLater(MinuteMoment(a, second), UtcMoment(b))
  {
    hide Pair;
    assert PairsNotAfter(a, b, 8, n, tie)
      <==> if Pair(a, 8) != Pair(b, 8) then Pair(a, 8) < Pair(b, 8)
           else second <= Pair(b, 10);
    assert PairsNotAfter(a, b, 4, n, tie)
      <==> if Pair(a, 4) != Pair(b, 4) then Pair(a, 4) < Pair(b, 4)
           else if Pair(a, 6) != Pair(b, 6) then Pair(a, 6) < Pair(b, 6)
           else PairsNotAfter(a, b, 8, n, tie);
    assert PairsNotAfter(a, b, 0, n, tie)
      <==> if Pair(a, 0) != Pair(b, 0) then Pair(a, 0) < Pair(b, 0)
           else if Pair(a, 2) != Pair(b, 2) then Pair(a, 2) < Pair(b, 2)
           else PairsNotAfter(a, b, 4, n, tie);
  }

  lemma MarksByPairs(date: string, now: string, n: nat, tie: bool, second: int)
    requires (n == 10 || n == 12) && Digits(date, n) && IsUtcTime(now)
    requires Compare(date[n..], now[n..]) <= 0 <==> tie
    requires n == 10 ==> tie == (second <= Pair(now, 10))
    requires n == 12 ==> tie && second == Pair(date, 10)
    ensures MarksExpired(date, now) <==> NotLater(MinuteMoment(date, second), UtcMoment(now))
  {
    SideOfYear(date);
    SideOfYear(now);
    if After2000(date) == After2000(now) {
      assert date[0..] == date && now[0..] == now;
      CompareByPairs(date, now, 0, n, tie);
      PairsAreFields(date, now, n, tie, second);
    }
  }

  // A text that ends, or goes on with anything that sorts before Z, is smaller where the clock ends with its Z.
  predicate SortsUpToZ(rest: string) {
    rest == "" || rest[0] < 'Z' || rest == "Z"
  }

  // Whatever the form of the date, the decision is about its first twelve digits, read as a UTCTime.
  lemma MarksByFirstTwelve(date: string, now: string)
    requires Digits(date, 12) && SortsUpToZ(date[12..]) && IsUtcTime(now)
    ensures MarksExpired(date, now) <==> NotLater(UtcMoment(date), UtcMoment(now))
  {
    assert now[12..] == "Z";
    assert Compare(date[12..], now[12..]) <= 0;
    MarksByPairs(date, now, 12, true, Pair(date, 10));
  }

  // Without seconds, what stands in their place decides: a sign sorts before every digit, and Z after.
  lemma MarksByMinute(date: string, now: string, second: int)
    requires Digits(date, 10) && |date| > 10 && IsUtcTime(now) && Pair(now, 10) < 60
    requires if date[10] < '0' then second == 0 else date[10] > '9' && second == 60
    ensures MarksExpired(date, now) <==> NotLater(MinuteMoment(date, second), UtcMoment(now))
  {
    assert date[10..][0] == date[10] && now[10..][0] == now[10];
    MarksByPairs(date, now, 10, date[10] < '0', second);
  }

  // For dates in the form that is prescribed up to 2049 marking is chronological.
  lemma ExpiryIsChronological(date: string, now: string)
    requires IsUtcTime(date) && IsUtcTime(now)
    ensures MarksExpired(date, now) <==> NotLater(UtcMoment(date), UtcMoment(now))
  {
    MarksByFirstTwelve(date, now);
  }

  predicate Later(a: Moment, b: Moment) {
    !NotLater(a, b)
  }

  // A date in the longer form is marked exactly if it has passed.
  predicate MarkedRightly(date: string, now: string)
    requires IsGeneralizedTime(date) && IsUtcTime(now)
  {
    MarksExpired(date, now) <==> NotLater(GeneralizedMoment(date), UtcMoment(now))
  }

  // The misread date and the one meant are on the same side of the clock. Where the clock's year is not the misread
  // one, the misread year alone says which side that has to be.
  predicate SameSide(misread: Moment, meant: Moment, clock: Moment) {
    if clock.year < misread.year then Later(meant, clock)
    else if clock.year > misread.year then NotLater(meant, clock)
    else NotLater(misread, clock) == NotLater(meant, clock)
  }

  // A date in the longer form is misread as a shorter date: its century as the year, its year as the month, and so
  // on. The decision is right exactly if that does not change sides.
  lemma GeneralizedTimeIsMisread(date: string, now: string)
    requires IsGeneralizedTime(date) && IsUtcTime(now)
    ensures MarkedRightly(date, now) <==> SameSide(UtcMoment(date), GeneralizedMoment(date), UtcMoment(now))
  {
    MarksByFirstTwelve(date, now);
  }

  // The condition for dates of this century: until 2019 that the date is ahead, from 2021 on that it has passed, and
  // in 2020 what the year of the date, compared with the month of the clock, decides.
  predicate FitsThisCentury(date: string, now: string)
    requires IsGeneralizedTime(date) && IsUtcTime(now)
  {
    var meant, clock, yy := GeneralizedMoment(date), UtcMoment(now), Pair(date, 2);
    if clock.year <= 2019 || (clock.year == 2020 && yy > clock.month) then Later(meant, clock)
    else if clock.year >= 2021 then NotLater(meant, clock)
    else yy < clock.month || NotLater(UtcMoment(date), clock)
  }

  lemma DatesOfThisCentury(date: string, now: string)
    requires IsGeneralizedTime(date) && IsUtcTime(now) && Pair(date, 0) == 20 && 1 <= Pair(now, 2) <= 12
    ensures MarkedRightly(date, now) <==> FitsThisCentury(date, now)
  {
    GeneralizedTimeIsMisread(date, now);
  }

  // The longer form is prescribed from 2050 on. The clock still shows a year up to 2049, so such a date never has
  // passed; it is left alone exactly if the misread date is later than the clock.
  lemma GeneralizedFrom2050(date: string, now: string)
    requires IsGeneralizedTime(date) && IsUtcTime(now) && GeneralizedMoment(date).year >= 2050
    ensures Later(GeneralizedMoment(date), UtcMoment(now))
    ensures MarkedRightly(date, now) <==> Later(UtcMoment(date), UtcMoment(now))
  {
    MarksByFirstTwelve(date, now);
  }

  // On 1 January 2025 a certificate that is valid until 2030 is marked as expired, ...
  lemma ValidUntil2030IsMarked()
    ensures var date, now := "20300101000000Z", "250101000000Z";
            && IsGeneralizedTime(date) && IsUtcTime(now)
            && MarksExpired(date, now) && Later(GeneralizedMoment(date), UtcMoment(now))
  {
    hide MarksExpired;
    MarksByFirstTwelve("20300101000000Z", "250101000000Z");
  }

  // ... and so is one that is valid until 2050.
  lemma ValidUntil2050IsMarked()
    ensures var date, now := "20500101000000Z", "250101000000Z";
            && IsGeneralizedTime(date) && IsUtcTime(now)
            && MarksExpired(date, now) && Later(GeneralizedMoment(date), UtcMoment(now))
  {
    hide MarksExpired;
    MarksByFirstTwelve("20500101000000Z", "250101000000Z");
  }

  // On 1 January 2019 one that was valid until 2018 is left alone.
  lemma ExpiredCertificateIsLeftAlone()
    ensures var date, now := "20180101000000Z", "190101000000Z";
            && IsGeneralizedTime(date) && IsUtcTime(now)
            && !MarksExpired(date, now) && NotLater(GeneralizedMoment(date), UtcMoment(now))
  {
    hide MarksExpired;
    MarksByFirstTwelve("20180101000000Z", "190101000000Z");
  }
}
