/** Registration generations: a hybrid logical clock rendered as strings that sort like its values. */
module Generations {
  const MAX_SEQUENCE := 99_999_999

  /** Byte-wise string order, as Lua compares. */
  predicate Less(a: string, b: string) {
    if b == "" then false
    else if a == "" then true
    else a[0] < b[0] || (a[0] == b[0] && Less(a[1..], b[1..]))
  }

  function Digit(d: nat): char
    requires d < 10
  {
    '0' + d as char
  }

  /** `Number.prototype.toString` */
  function Decimal(n: nat): string {
    if n < 10 then [Digit(n)] else Decimal(n / 10) + [Digit(n % 10)]
  }

  /** `padStart(width, "0")` */
  function PadStart(s: string, width: nat): string
    decreases width - |s|
  {
    if |s| >= width then s else PadStart("0" + s, width)
  }

  function Encode(timestamp: nat, sequence: nat, uuid: string): string {
    PadStart(Decimal(timestamp), 16) + ":" + PadStart(Decimal(sequence), 8) + ":" + uuid
  }

  function Pow10(w: nat): (p: nat)
    ensures p >= 1
  {
    if w == 0 then 1 else 10 * Pow10(w - 1)
  }

  // ---------------------------------------------------------------------------------------------
  // String order is a strict total order

  lemma {:induction false} LessTrichotomy(a: string, b: string)
    ensures !Less(a, a)
    ensures Less(a, b) || Less(b, a) || a == b
    ensures !(Less(a, b) && Less(b, a))
  {
    if a != "" {
      LessTrichotomy(a[1..], if b != "" then b[1..] else "");
      assert b != "" && a[0] == b[0] && a[1..] == b[1..] ==> a == b by {
        assert a == [a[0]] + a[1..];
        assert b != "" ==> b == [b[0]] + b[1..];
      }
    }
  }

  lemma {:induction false} LessTransitive(a: string, b: string, c: string)
    requires Less(a, b) && Less(b, c)
    ensures Less(a, c)
  {
    if a != "" && a[0] == b[0] && b[0] == c[0] {
      LessTransitive(a[1..], b[1..], c[1..]);
    }
  }

  /** Behind prefixes of equal length, the prefixes decide first. */
  lemma {:induction false} LessOfConcat(a: string, x: string, b: string, y: string)
    requires |a| == |b|
    ensures Less(a + x, b + y) <==> Less(a, b) || (a == b && Less(x, y))
  {
    if a == "" {
      assert a + x == x && b + y == y;
    } else {
      LessOfConcat(a[1..], x, b[1..], y);
      assert (a + x)[1..] == a[1..] + x && (b + y)[1..] == b[1..] + y;
      assert a == [a[0]] + a[1..] && b == [b[0]] + b[1..];
    }
  }

  // ---------------------------------------------------------------------------------------------
  // Fixed-width numerals sort like numbers

  /** Exactly `width` digits of n. */
  function Fixed(n: nat, width: nat): (s: string)
    ensures |s| == width
  {
    if width == 0 then "" else Fixed(n / 10, width - 1) + [Digit(n % 10)]
  }

  lemma {:induction false} FixedOfSmall(n: nat, width: nat)
    requires width >= 1 && n < Pow10(width - 1)
    ensures Fixed(n, width) == "0" + Fixed(n, width - 1)
  {
    if width > 1 {
      assert n / 10 < Pow10(width - 2);
      FixedOfSmall(n / 10, width - 1);
    }
  }

  lemma {:induction false} DecimalIsFixed(n: nat)
    ensures |Decimal(n)| >= 1 && Decimal(n) == Fixed(n, |Decimal(n)|) && n < Pow10(|Decimal(n)|)
  {
    if n < 10 {
      assert Fixed(n / 10, 0) == "";
      assert Pow10(1) == 10 * Pow10(0);
    } else {
      DecimalIsFixed(n / 10);
    }
  }

  lemma {:induction false} DecimalFits(n: nat, width: nat)
    requires width >= 1 && n < Pow10(width)
    ensures |Decimal(n)| <= width
  {
    if n >= 10 {
      assert Pow10(1) == 10 * Pow10(0);
      DecimalFits(n / 10, width - 1);
    }
  }

  lemma {:induction false} PadIsFixed(n: nat, k: nat, width: nat)
    requires k <= width && n < Pow10(k)
    ensures PadStart(Fixed(n, k), width) == Fixed(n, width)
    decreases width - k
  {
    if k < width {
      FixedOfSmall(n, k + 1);
      PadIsFixed(n, k + 1, width);
    }
  }

  /** Padding a number that fits gives exactly its fixed-width numeral. */
  lemma PaddedDecimal(n: nat, width: nat)
    requires width >= 1 && n < Pow10(width)
    ensures PadStart(Decimal(n), width) == Fixed(n, width)
  {
    DecimalIsFixed(n);
    DecimalFits(n, width);
    PadIsFixed(n, |Decimal(n)|, width);
  }

  lemma {:induction false} FixedOrder(m: nat, n: nat, width: nat)
    requires m < Pow10(width) && n < Pow10(width)
    ensures Less(Fixed(m, width), Fixed(n, width)) <==> m < n
    ensures Fixed(m, width) == Fixed(n, width) <==> m == n
  {
    if width > 0 {
      FixedOrder(m / 10, n / 10, width - 1);
      var a, b := Fixed(m / 10, width - 1), Fixed(n / 10, width - 1);
      var c, d := [Digit(m % 10)], [Digit(n % 10)];
      LessOfConcat(a, c, b, d);
      assert Less(c, d) <==> m % 10 < n % 10;
      assert a + c == b + d ==> a == b && c == d by {
        if a + c == b + d {
          assert a == (a + c)[..|a|] && b == (b + d)[..|b|];
          assert c[0] == (a + c)[|a|] && d[0] == (b + d)[|b|];
        }
      }
    }
  }

  predicate Earlier(t: nat, s: nat, u: string, t': nat, s': nat, u': string) {
    t < t' || (t == t' && (s < s' || (s == s' && Less(u, u'))))
  }

  lemma Reassociate(a: string, b: string, u: string)
    ensures a + ":" + b + ":" + u == a + (":" + (b + (":" + u)))
  {
  }

  lemma EncodeShape(t: nat, s: nat, u: string)
    requires t < Pow10(16) && s < Pow10(8)
    ensures Encode(t, s, u) == Fixed(t, 16) + (":" + (Fixed(s, 8) + (":" + u)))
  {
    var a, b := PadStart(Decimal(t), 16), PadStart(Decimal(s), 8);
    assert a == Fixed(t, 16) by { PaddedDecimal(t, 16); }
    assert b == Fixed(s, 8) by { PaddedDecimal(s, 8); }
    Reassociate(a, b, u);
  }

  /** While timestamps have at most 16 digits, generations compare as strings exactly as (timestamp,
      sequence, uuid) do. */
  lemma EncodingKeepsOrder(t: nat, s: nat, u: string, t': nat, s': nat, u': string)
    requires t < Pow10(16) && t' < Pow10(16) && s < Pow10(8) && s' < Pow10(8)
    ensures Less(Encode(t, s, u), Encode(t', s', u')) <==> Earlier(t, s, u, t', s', u')
  {
    EncodeShape(t, s, u);
    EncodeShape(t', s', u');
    FixedOrder(t, t', 16);
    FixedOrder(s, s', 8);
    var x, x' := Fixed(s, 8) + (":" + u), Fixed(s', 8) + (":" + u');
    LessOfConcat(Fixed(t, 16), ":" + x, Fixed(t', 16), ":" + x');
    LessOfConcat(":", x, ":", x');
    LessOfConcat(Fixed(s, 8), ":" + u, Fixed(s', 8), ":" + u');
    LessOfConcat(":", u, ":", u');
  }

  // ---------------------------------------------------------------------------------------------
  // The clock

  /** The module's two variables after one reading of the wall clock. */
  function Advance(last: (nat, nat), observed: nat): (next: (nat, nat))
    ensures last.1 <= MAX_SEQUENCE ==> next.1 <= MAX_SEQUENCE
    ensures next.0 > last.0 || (next.0 == last.0 && next.1 > last.1)
    ensures next.0 >= observed
  {
    if observed > last.0 then (observed, 0)
    else if last.1 + 1 > MAX_SEQUENCE then (last.0 + 1, 0)
    else (last.0, last.1 + 1)
  }

  function ClockAfter(readings: seq<nat>): (nat, nat) {
    if readings == [] then (0, 0)
    else Advance(ClockAfter(readings[..|readings| - 1]), readings[|readings| - 1])
  }

  /** `createGeneration` over the module's variables. */
  class GenerationClock {
    var lastTimestamp: nat
    var lastSequence: nat
    ghost var readings: seq<nat>

    ghost predicate Valid()
      reads this
    {
      (lastTimestamp, lastSequence) == ClockAfter(readings)
    }

    constructor ()
      ensures Valid() && readings == []
    {
      lastTimestamp, lastSequence, readings := 0, 0, [];
    }

    method CreateGeneration(observedAt: nat, uuid: string) returns (generation: string)
      requires Valid()
      modifies this
      ensures Valid() && readings == old(readings) + [observedAt]
      ensures generation == Encode(lastTimestamp, lastSequence, uuid)
    {
      if observedAt > lastTimestamp {
        lastTimestamp := observedAt;
        lastSequence := 0;
      } else {
        lastSequence := lastSequence + 1;
        if lastSequence > MAX_SEQUENCE {
          lastTimestamp := lastTimestamp + 1;
          lastSequence := 0;
        }
      }
      generation := Encode(lastTimestamp, lastSequence, uuid);
      readings := readings + [observedAt];
      assert readings[..|readings| - 1] == old(readings);
    }
  }

  lemma {:induction false} SequenceBounded(readings: seq<nat>)
    ensures ClockAfter(readings).1 <= MAX_SEQUENCE
  {
    if readings != [] {
      SequenceBounded(readings[..|readings| - 1]);
    }
  }

  /** For any clock readings, forward or backward, later generations are strictly greater pairs. */
  lemma {:induction false} ClockIncreases(readings: seq<nat>, i: nat, j: nat)
    requires 0 < i < j <= |readings|
    ensures var a, b := ClockAfter(readings[..i]), ClockAfter(readings[..j]);
            a.0 < b.0 || (a.0 == b.0 && a.1 < b.1)
    decreases j
  {
    assert readings[..j][..j - 1] == readings[..j - 1];
    if i < j - 1 {
      ClockIncreases(readings, i, j - 1);
    }
  }

  predicate Behind(a: (nat, nat), b: (nat, nat)) {
    a.0 < b.0 || (a.0 == b.0 && a.1 < b.1)
  }

  lemma AdvanceIsLeast(before: (nat, nat), now: nat, other: (nat, nat))
    requires before.1 <= MAX_SEQUENCE
    ensures var after := Advance(before, now);
            && Behind(before, after) && now <= after.0 && after.1 <= MAX_SEQUENCE
            && (Behind(before, other) && now <= other.0 && other.1 <= MAX_SEQUENCE ==> after == other || Behind(after, other))
            && (before.0 < now ==> after == (now, 0))
  {
  }

  /** Each call moves the clock to the least pair that is above the one before, not before the reading,
      and within the sequence width: a forward reading gives exactly itself and zero. */
  lemma ClockIsLeast(readings: seq<nat>, now: nat, other: (nat, nat))
    ensures var before, after := ClockAfter(readings), ClockAfter(readings + [now]);
            && Behind(before, after) && now <= after.0 && after.1 <= MAX_SEQUENCE
            && (Behind(before, other) && now <= other.0 && other.1 <= MAX_SEQUENCE ==> after == other || Behind(after, other))
            && (before.0 < now ==> after == (now, 0))
  {
    SequenceBounded(readings);
    AdvanceIsLeast(ClockAfter(readings), now, other);
    assert (readings + [now])[..|readings|] == readings;
  }

  /** ... and so are their strings, whatever the uuids, until timestamps outgrow 16 digits. */
  lemma GenerationsIncrease(readings: seq<nat>, i: nat, j: nat, u: string, v: string)
    requires 0 < i < j <= |readings| && ClockAfter(readings[..j]).0 < Pow10(16)
    ensures var a, b := ClockAfter(readings[..i]), ClockAfter(readings[..j]);
            Less(Encode(a.0, a.1, u), Encode(b.0, b.1, v))
  {
    var a, b := ClockAfter(readings[..i]), ClockAfter(readings[..j]);
    ClockIncreases(readings, i, j);
    SequenceBounded(readings[..i]);
    SequenceBounded(readings[..j]);
    Pow10Of8();
    EncodingKeepsOrder(a.0, a.1, u, b.0, b.1, v);
  }

  lemma Pow10Of8()
    ensures Pow10(8) == MAX_SEQUENCE + 1
  {
    assert Pow10(2) == 100;
    assert Pow10(4) == 10_000;
    assert Pow10(6) == 1_000_000;
  }
}
