/**
 The order SQLite gives to `(updated_at, id)` as text, and the order of the instants and ids they spell. The
 server stores chrono's `to_rfc3339` of a UTC time, whose fraction has no digits or three, six or nine, which
 is more than the fixed-width rule of section 5.1 of RFC 3339 covers; ids are ULIDs.
 */
module Timestamps {
  import opened Text
  import S = ServerTable

  // ----- digits ---------------------------------------------------------------------------------------

  /** Crockford's base 32, which leaves out I, L, O and U. Its first ten digits are the decimal ones. */
  function Digit(d: nat): char
    requires d < 32
  {
    if d < 10 then ('0' as int + d) as char
    else if d < 18 then ('A' as int + d - 10) as char
    else if d < 20 then ('J' as int + d - 18) as char
    else if d < 22 then ('M' as int + d - 20) as char
    else if d < 27 then ('P' as int + d - 22) as char
    else ('V' as int + d - 27) as char
  }

  lemma DigitsAscend(a: nat, b: nat)
    requires a < 32 && b < 32
    ensures Digit(a) < Digit(b) <==> a < b
    ensures Digit(a) == Digit(b) <==> a == b
    ensures '0' <= Digit(a)
  {
  }

  /** Decimal for times, 32 for ids. */
  predicate IsBase(base: nat) {
    base == 10 || base == 32
  }

  function Power(base: nat, width: nat): nat {
    if width == 0 then 1 else base * Power(base, width - 1)
  }

  /** `n` in exactly `width` digits, most significant first. */
  function Fixed(n: nat, width: nat, base: nat): (s: string)
    requires IsBase(base)
    ensures |s| == width
  {
    if width == 0 then "" else Fixed(n / base, width - 1, base) + [Digit(n % base)]
  }

  // ----- comparing texts ------------------------------------------------------------------------------

  lemma {:induction false} SamePrefix(prefix: string, a: string, b: string)
    ensures TextLess(prefix + a, prefix + b) <==> TextLess(a, b)
  {
    if prefix == "" {
      assert prefix + a == a && prefix + b == b;
    } else {
      SamePrefix(prefix[1..], a, b);
      assert (prefix + a)[1..] == prefix[1..] + a && (prefix + b)[1..] == prefix[1..] + b;
    }
  }

  /** Texts of one length are decided before what follows them. */
  lemma {:induction false} SameLength(a: string, b: string, x: string, y: string)
    requires |a| == |b| && a != b
    ensures TextLess(a + x, b + y) <==> TextLess(a, b)
  {
    assert a == [a[0]] + a[1..] && b == [b[0]] + b[1..];
    assert (a + x)[1..] == a[1..] + x && (b + y)[1..] == b[1..] + y;
    if a[0] == b[0] {
      SameLength(a[1..], b[1..], x, y);
    }
  }

  lemma {:induction false} FixedOrder(a: nat, b: nat, width: nat, base: nat)
    requires IsBase(base) && a < Power(base, width) && b < Power(base, width)
    ensures TextLess(Fixed(a, width, base), Fixed(b, width, base)) <==> a < b
    ensures Fixed(a, width, base) == Fixed(b, width, base) <==> a == b
  {
    if width > 0 {
      QuotientFits(a, base, Power(base, width - 1));
      QuotientFits(b, base, Power(base, width - 1));
      DivisionOrder(a, b, base);
      FixedOrder(a / base, b / base, width - 1, base);
      LastDigitOrder(Fixed(a / base, width - 1, base), Fixed(b / base, width - 1, base), a % base, b % base);
    }
  }

  lemma LastDigitOrder(head: string, head': string, low: nat, low': nat)
    requires |head| == |head'| && low < 32 && low' < 32
    ensures TextLess(head + [Digit(low)], head' + [Digit(low')])
       <==> if head == head' then low < low' else TextLess(head, head')
    ensures head + [Digit(low)] == head' + [Digit(low')] <==> head == head' && low == low'
  {
    DigitsAscend(low, low');
    var whole, whole' := head + [Digit(low)], head' + [Digit(low')];
    assert whole[..|head|] == head && whole'[..|head|] == head';
    assert whole[|head|] == Digit(low) && whole'[|head|] == Digit(low');
    if head == head' {
      SamePrefix(head, [Digit(low)], [Digit(low')]);
    } else {
      SameLength(head, head', [Digit(low)], [Digit(low')]);
    }
  }

  lemma QuotientFits(n: nat, base: nat, bound: nat)
    requires IsBase(base) && n < base * bound
    ensures n / base < bound
  {
    if base == 10 {
    } else {
    }
  }

  lemma DivisionOrder(a: nat, b: nat, base: nat)
    requires IsBase(base)
    ensures a < b <==> a / base < b / base || (a / base == b / base && a % base < b % base)
    ensures a == b <==> a / base == b / base && a % base == b % base
  {
    if base == 10 {
    } else {
    }
  }

  /** A field of fixed width decides, and what follows counts only when the fields are equal. */
  lemma FieldOrder(a: nat, b: nat, width: nat, base: nat, x: string, y: string)
    requires IsBase(base) && a < Power(base, width) && b < Power(base, width)
    ensures TextLess(Fixed(a, width, base) + x, Fixed(b, width, base) + y) <==> a < b || (a == b && TextLess(x, y))
  {
    FixedOrder(a, b, width, base);
    if a == b {
      SamePrefix(Fixed(a, width, base), x, y);
    } else {
      SameLength(Fixed(a, width, base), Fixed(b, width, base), x, y);
    }
  }

  // ----- ids ------------------------------------------------------------------------------------------

  const ULID_LENGTH := 26

  function Ulid(id: S.Id): string {
    Fixed(id, ULID_LENGTH, 32)
  }

  predicate IsUlid(id: S.Id) {
    id < Power(32, ULID_LENGTH)
  }

  // ----- instants -------------------------------------------------------------------------------------

  datatype Stamp = Stamp(year: int, month: nat, day: nat, hour: nat, minute: nat, second: nat, nanos: nat) {
    predicate Valid() {
      && 1 <= month <= 12 && 1 <= day <= 31 && hour < 24 && minute < 60 && second < 60 && nanos < 1_000_000_000
    }

    /** Years that are written with four digits and no sign. */
    predicate CommonEra() {
      0 <= year <= 9999
    }

    predicate Before(other: Stamp) {
      || year < other.year
      || (year == other.year && (
        || month < other.month
        || (month == other.month && (
          || day < other.day
          || (day == other.day && (
            || hour < other.hour
            || (hour == other.hour && (
              || minute < other.minute
              || (minute == other.minute && (
                || second < other.second
                || (second == other.second && nanos < other.nanos)))))))))))
    }
  }

  const OFFSET := "+00:00"

  function Dec(n: nat, width: nat): string {
    Fixed(n, width, 10)
  }

  /** As few of three, six or nine digits as tell the fraction, none for a whole second. */
  function FractionText(nanos: nat): string {
    if nanos == 0 then ""
    else if nanos % 1_000_000 == 0 then "." + Dec(nanos / 1_000_000, 3)
    else if nanos % 1_000 == 0 then "." + Dec(nanos / 1_000, 6)
    else "." + Dec(nanos, 9)
  }

  function YearText(year: int): string {
    if 0 <= year <= 9999 then Dec(year, 4)
    else if year < 0 then "-" + (if -year < 10000 then Dec(-year, 4) else Decimal(-year))
    else "+" + Decimal(year)
  }

  /** `to_rfc3339` */
  function StampText(t: Stamp): string {
    YearText(t.year) + ("-" + (Dec(t.month, 2) + ("-" + (Dec(t.day, 2)
      + ("T" + (Dec(t.hour, 2) + (":" + (Dec(t.minute, 2) + (":" + (Dec(t.second, 2)
      + (FractionText(t.nanos) + OFFSET)))))))))))
  }

  // ----- the order of fractions -------------------------------------------------------------------------

  lemma Powers()
    ensures Power(10, 2) == 100 && Power(10, 3) == 1000 && Power(10, 4) == 10000
  {
    assert Power(10, 1) == 10 * Power(10, 0);
    assert Power(10, 2) == 10 * Power(10, 1);
    assert Power(10, 3) == 10 * Power(10, 2);
  }

  lemma DecOrder(a: nat, b: nat, width: nat, x: string, y: string)
    requires 2 <= width <= 4 && a < Power(10, width) && b < Power(10, width)
    ensures TextLess(Dec(a, width) + x, Dec(b, width) + y) <==> a < b || (a == b && TextLess(x, y))
  {
    FieldOrder(a, b, width, 10, x, y);
  }

  lemma ThousandDigits(n: nat)
    ensures n / 10 / 10 / 10 == n / 1000 && n % 1000 / 10 / 10 / 10 == 0
    ensures n % 10 == n % 1000 % 10 && n / 10 % 10 == n % 1000 / 10 % 10 && n / 10 / 10 % 10 == n % 1000 / 10 / 10 % 10
  {
    var q, m := n / 1000, n % 1000;
    assert n == 1000 * q + m;
    assert n / 10 == 100 * q + m / 10;
    assert n / 10 / 10 == 10 * q + m / 10 / 10;
  }

  lemma UnfoldThree(n: nat, width: nat)
    ensures Dec(n, width + 3)
         == Dec(n / 10 / 10 / 10, width) + [Digit(n / 10 / 10 % 10), Digit(n / 10 % 10), Digit(n % 10)]
  {
    assert Fixed(n / 10, width + 2, 10) == Fixed(n / 10 / 10, width + 1, 10) + [Digit(n / 10 % 10)];
    assert Fixed(n / 10 / 10, width + 1, 10) == Fixed(n / 10 / 10 / 10, width, 10) + [Digit(n / 10 / 10 % 10)];
  }

  /** The last three of some digits. */
  lemma LastThree(n: nat, width: nat)
    ensures Dec(n, width + 3) == Dec(n / 1000, width) + Dec(n % 1000, 3)
  {
    ThousandDigits(n);
    UnfoldThree(n, width);
    UnfoldThree(n % 1000, 0);
    assert Dec(n % 1000, 0 + 3) == Dec(n % 1000, 3);
  }

  function AfterMicros(low: nat): string {
    if low == 0 then OFFSET else Dec(low, 3) + OFFSET
  }

  function AfterMillis(middle: nat, low: nat): string {
    if middle == 0 && low == 0 then OFFSET else Dec(middle, 3) + AfterMicros(low)
  }

  /** The fraction and the offset, digit group by digit group. */
  lemma FractionShape(nanos: nat)
    requires nanos < 1_000_000_000
    ensures FractionText(nanos) + OFFSET
         == if nanos == 0 then OFFSET
            else "." + (Dec(nanos / 1_000_000, 3) + AfterMillis(nanos / 1000 % 1000, nanos % 1000))
  {
    Groups(nanos);
    LastThree(nanos, 6);
    LastThree(nanos / 1000, 3);
  }

  lemma Groups(nanos: nat)
    ensures nanos / 1000 / 1000 == nanos / 1_000_000
    ensures nanos % 1_000_000 == 0 <==> nanos / 1000 % 1000 == 0 && nanos % 1000 == 0
  {
    var middle, low := nanos / 1000 % 1000, nanos % 1000;
    assert nanos == 1_000_000 * (nanos / 1_000_000) + (1000 * middle + low);
  }

  lemma OffsetComesFirst(n: nat, x: string)
    requires n < 1000
    ensures TextLess(OFFSET, Dec(n, 3) + x) && !TextLess(Dec(n, 3) + x, OFFSET)
  {
    var s := Dec(n, 3);
    assert s == Fixed(n / 10, 2, 10) + [Digit(n % 10)];
    assert Fixed(n / 10, 2, 10) == Fixed(n / 10 / 10, 1, 10) + [Digit(n / 10 % 10)];
    assert Fixed(n / 10 / 10, 1, 10) == Fixed(n / 10 / 10 / 10, 0, 10) + [Digit(n / 10 / 10 % 10)];
    assert (s + x)[0] == s[0] == Digit(n / 10 / 10 % 10);
    assert OFFSET[0] == '+';
  }

  lemma AfterMicrosOrder(a: nat, b: nat)
    requires a < 1000 && b < 1000
    ensures TextLess(AfterMicros(a), AfterMicros(b)) <==> a < b
  {
    Powers();
    TextLessIsIrreflexive(OFFSET);
    OffsetComesFirst(a, OFFSET);
    OffsetComesFirst(b, OFFSET);
    DecOrder(a, b, 3, OFFSET, OFFSET);
  }

  lemma AfterMillisOrder(middle: nat, low: nat, middle': nat, low': nat)
    requires middle < 1000 && low < 1000 && middle' < 1000 && low' < 1000
    ensures TextLess(AfterMillis(middle, low), AfterMillis(middle', low'))
       <==> middle < middle' || (middle == middle' && low < low')
  {
    Powers();
    TextLessIsIrreflexive(OFFSET);
    OffsetComesFirst(middle, AfterMicros(low));
    OffsetComesFirst(middle', AfterMicros(low'));
    DecOrder(middle, middle', 3, AfterMicros(low), AfterMicros(low'));
    AfterMicrosOrder(low, low');
  }

  lemma FractionOrder(a: nat, b: nat)
    requires a < 1_000_000_000 && b < 1_000_000_000
    ensures TextLess(FractionText(a) + OFFSET, FractionText(b) + OFFSET) <==> a < b
  {
    FractionShape(a);
    FractionShape(b);
    TextLessIsIrreflexive(OFFSET);
    var x := Dec(a / 1_000_000, 3) + AfterMillis(a / 1000 % 1000, a % 1000);
    var y := Dec(b / 1_000_000, 3) + AfterMillis(b / 1000 % 1000, b % 1000);
    DotComesAfterOffset(x);
    DotComesAfterOffset(y);
    if a != 0 && b != 0 {
      SamePrefix(".", x, y);
      Powers();
      DecOrder(a / 1_000_000, b / 1_000_000, 3,
               AfterMillis(a / 1000 % 1000, a % 1000), AfterMillis(b / 1000 % 1000, b % 1000));
      AfterMillisOrder(a / 1000 % 1000, a % 1000, b / 1000 % 1000, b % 1000);
      GroupsOrder(a, b);
    }
  }

  lemma DotComesAfterOffset(x: string)
    ensures TextLess(OFFSET, "." + x) && !TextLess("." + x, OFFSET)
  {
    assert OFFSET[0] == '+' && ("." + x)[0] == '.';
  }

  lemma ThousandsOrder(a: nat, b: nat)
    ensures a < b <==> a / 1000 < b / 1000 || (a / 1000 == b / 1000 && a % 1000 < b % 1000)
  {
  }

  lemma GroupsOrder(a: nat, b: nat)
    ensures a < b <==>
            || a / 1_000_000 < b / 1_000_000
            || (a / 1_000_000 == b / 1_000_000 && (
              || a / 1000 % 1000 < b / 1000 % 1000
              || (a / 1000 % 1000 == b / 1000 % 1000 && a % 1000 < b % 1000)))
  {
    ThousandsOrder(a, b);
    ThousandsOrder(a / 1000, b / 1000);
    Millions(a);
    Millions(b);
  }

  lemma Millions(n: nat)
    ensures n / 1000 / 1000 == n / 1_000_000
    ensures n / 1000 == 1000 * (n / 1_000_000) + n / 1000 % 1000
  {
  }

  // ----- the order of stamps ----------------------------------------------------------------------------

  lemma SeparatedOrder(a: nat, b: nat, separator: string, x: string, y: string)
    requires a < 100 && b < 100
    ensures TextLess(separator + (Dec(a, 2) + x), separator + (Dec(b, 2) + y)) <==> a < b || (a == b && TextLess(x, y))
  {
    Powers();
    SamePrefix(separator, Dec(a, 2) + x, Dec(b, 2) + y);
    DecOrder(a, b, 2, x, y);
  }

  function TimeText(t: Stamp): string {
    "T" + (Dec(t.hour, 2) + (":" + (Dec(t.minute, 2) + (":" + (Dec(t.second, 2) + (FractionText(t.nanos) + OFFSET))))))
  }

  predicate TimeBefore(a: Stamp, b: Stamp) {
    || a.hour < b.hour
    || (a.hour == b.hour && (
      || a.minute < b.minute
      || (a.minute == b.minute && (
        || a.second < b.second
        || (a.second == b.second && a.nanos < b.nanos)))))
  }

  lemma TimeOrder(a: Stamp, b: Stamp)
    requires a.Valid() && b.Valid()
    ensures TextLess(TimeText(a), TimeText(b)) <==> TimeBefore(a, b)
  {
    var x, y := FractionText(a.nanos) + OFFSET, FractionText(b.nanos) + OFFSET;
    FractionOrder(a.nanos, b.nanos);
    var x1, y1 := ":" + (Dec(a.second, 2) + x), ":" + (Dec(b.second, 2) + y);
    SeparatedOrder(a.second, b.second, ":", x, y);
    var x2, y2 := ":" + (Dec(a.minute, 2) + x1), ":" + (Dec(b.minute, 2) + y1);
    SeparatedOrder(a.minute, b.minute, ":", x1, y1);
    SeparatedOrder(a.hour, b.hour, "T", x2, y2);
  }

  /** Text order is time order for the years 0 to 9999, however many digits the fractions have. */
  lemma StampOrder(a: Stamp, b: Stamp)
    requires a.Valid() && b.Valid() && a.CommonEra() && b.CommonEra()
    ensures TextLess(StampText(a), StampText(b)) <==> a.Before(b)
  {
    Powers();
    TimeOrder(a, b);
    var x1, y1 := "-" + (Dec(a.day, 2) + TimeText(a)), "-" + (Dec(b.day, 2) + TimeText(b));
    SeparatedOrder(a.day, b.day, "-", TimeText(a), TimeText(b));
    var x2, y2 := "-" + (Dec(a.month, 2) + x1), "-" + (Dec(b.month, 2) + y1);
    SeparatedOrder(a.month, b.month, "-", x1, y1);
    DecOrder(a.year, b.year, 4, x2, y2);
    assert StampText(a) == Dec(a.year, 4) + x2 && StampText(b) == Dec(b.year, 4) + y2;
  }

  /** Equal texts spell equal stamps: neither comes before the other. */
  lemma StampTextIsExact(a: Stamp, b: Stamp)
    requires a.Valid() && b.Valid() && a.CommonEra() && b.CommonEra()
    ensures StampText(a) == StampText(b) <==> a == b
  {
    StampOrder(a, b);
    StampOrder(b, a);
    TextLessIsIrreflexive(StampText(a));
  }

  /** The limit is real: from the year 10000 on, chrono writes a sign, which sorts before every digit. */
  lemma LaterYearsSortFirst(a: Stamp, b: Stamp)
    requires a.Valid() && b.Valid() && a.CommonEra() && b.year >= 10000
    ensures a.Before(b) && TextLess(StampText(b), StampText(a))
  {
    UnfoldThree(a.year, 1);
    var rest := a.year / 10 / 10 / 10;
    assert Fixed(rest, 1, 10) == Fixed(rest / 10, 0, 10) + [Digit(rest % 10)];
    assert StampText(a)[0] == Dec(a.year, 4)[0] == Digit(rest % 10);
    assert StampText(b)[0] == '+';
  }

  // ----- the keyset comparison --------------------------------------------------------------------------

  /** The instant as one number: mixed radix over the fields. */
  function Instant(t: Stamp): nat
    requires t.Valid() && t.CommonEra()
  {
    ((((((t.year * 13 + t.month) * 32 + t.day) * 24 + t.hour) * 60 + t.minute) * 60 + t.second) * 1_000_000_000)
      + t.nanos
  }

  lemma InstantsAscend(a: Stamp, b: Stamp)
    requires a.Valid() && b.Valid() && a.CommonEra() && b.CommonEra()
    ensures Instant(a) < Instant(b) <==> a.Before(b)
    ensures Instant(a) == Instant(b) <==> a == b
  {
  }

  /** `updated_at < ? OR (updated_at = ? AND id < ?)`, on the stored texts */
  predicate SqlBelow(at: string, id: string, cursorAt: string, cursorId: string) {
    TextLess(at, cursorAt) || (at == cursorAt && TextLess(id, cursorId))
  }

  /** The server's text comparison is the comparison of keys that the protocol and the client rely on. */
  lemma SqlOrderIsKeyOrder(a: Stamp, i: S.Id, b: Stamp, j: S.Id)
    requires a.Valid() && b.Valid() && a.CommonEra() && b.CommonEra() && IsUlid(i) && IsUlid(j)
    ensures SqlBelow(StampText(a), Ulid(i), StampText(b), Ulid(j)) <==> S.Key(Instant(a), i).Lt(S.Key(Instant(b), j))
  {
    StampOrder(a, b);
    StampTextIsExact(a, b);
    InstantsAscend(a, b);
    FixedOrder(i, j, ULID_LENGTH, 32);
  }

  // ----- what the texts spell -------------------------------------------------------------------------

  /** The alphabet of ids, spelled out. */
  lemma DigitsAreCrockfords(d: nat)
    requires d < 32
    ensures Digit(d) == "0123456789ABCDEFGHJKMNPQRSTVWXYZ"[d]
  {
  }

  lemma {:induction false} FixedIsDecimal(n: nat, width: nat)
    requires n < Power(10, width)
    ensures AllDigits(Dec(n, width)) && DigitsValue(Dec(n, width)) == n
    decreases width
  {
    if width > 0 {
      var rest := Dec(n / 10, width - 1);
      QuotientFits(n, 10, Power(10, width - 1));
      FixedIsDecimal(n / 10, width - 1);
      assert Dec(n, width) == rest + [Digit(n % 10)];
      assert Dec(n, width)[..|rest|] == rest;
    }
  }

  /** `s` spells `n` in the digits from `i` to `j`. */
  predicate Spells(s: string, i: nat, j: nat, n: nat) {
    i <= j <= |s| && AllDigits(s[i..j]) && DigitsValue(s[i..j]) == n
  }

  lemma PartSpells(s: string, i: nat, n: nat, width: nat, head: string, tail: string)
    requires s == head + (Dec(n, width) + tail) && i == |head| && n < Power(10, width)
    ensures Spells(s, i, i + width, n)
  {
    FixedIsDecimal(n, width);
    assert s[i..i + width] == Dec(n, width);
  }

  /** The text of a time: its fields in their places, with the separators of RFC 3339, section 5.6. */
  lemma StampIsSpelledOut(t: Stamp)
    requires t.Valid() && t.CommonEra()
    ensures var s := StampText(t);
            && |s| >= 19 && s[4] == '-' && s[7] == '-' && s[10] == 'T' && s[13] == ':' && s[16] == ':'
            && Spells(s, 0, 4, t.year) && Spells(s, 5, 7, t.month) && Spells(s, 8, 10, t.day)
            && Spells(s, 11, 13, t.hour) && Spells(s, 14, 16, t.minute) && Spells(s, 17, 19, t.second)
            && s[19..] == FractionText(t.nanos) + "+00:00"
  {
    hide Fixed, FractionText, DigitsValue, AllDigits, Power;
    Powers();
    var year, month, day := Dec(t.year, 4), Dec(t.month, 2), Dec(t.day, 2);
    var hour, minute, second := Dec(t.hour, 2), Dec(t.minute, 2), Dec(t.second, 2);
    var tail := FractionText(t.nanos) + OFFSET;
    var s := StampText(t);
    assert s == year + "-" + month + "-" + day + "T" + hour + ":" + minute + ":" + second + tail;
    FixedIsDecimal(t.year, 4);
    FixedIsDecimal(t.month, 2);
    FixedIsDecimal(t.day, 2);
    FixedIsDecimal(t.hour, 2);
    FixedIsDecimal(t.minute, 2);
    FixedIsDecimal(t.second, 2);
    assert s[0..4] == year && s[5..7] == month && s[8..10] == day;
    assert s[11..13] == hour && s[14..16] == minute && s[17..19] == second && s[19..] == tail;
  }

  /** The fraction: nothing for whole seconds, and else the point and the digits of the fraction. */
  lemma FractionIsSpelledOut(nanos: nat)
    requires nanos < 1_000_000_000
    ensures nanos == 0 <==> FractionText(nanos) == ""
    ensures nanos > 0 ==>
              var s := FractionText(nanos);
              && s[0] == '.' && (|s| == 4 || |s| == 7 || |s| == 10) && AllDigits(s[1..])
              && DigitsValue(s[1..]) * (if |s| == 4 then 1_000_000 else if |s| == 7 then 1_000 else 1) == nanos
  {
    if nanos > 0 {
      var width := if nanos % 1_000_000 == 0 then 3 else if nanos % 1_000 == 0 then 6 else 9;
      var n := if width == 3 then nanos / 1_000_000 else if width == 6 then nanos / 1_000 else nanos;
      NinePowers();
      FixedIsDecimal(n, width);
      assert FractionText(nanos) == "." + Dec(n, width);
      assert FractionText(nanos)[1..] == Dec(n, width);
    }
  }

  lemma NinePowers()
    ensures Power(10, 3) == 1000 && Power(10, 6) == 1_000_000 && Power(10, 9) == 1_000_000_000
  {
    Powers();
    assert Power(10, 5) == 10 * Power(10, 4);
    assert Power(10, 6) == 10 * Power(10, 5);
    assert Power(10, 7) == 10 * Power(10, 6);
    assert Power(10, 8) == 10 * Power(10, 7);
    assert Power(10, 9) == 10 * Power(10, 8);
  }
}
