/** Instants stored as RFC3339Nano text and compared by SQL as text: when the order of texts is the order
    of time. Between different seconds it always is; within one second not always. */
module Timestamps {
  import opened Text

  /** Year, month, day, hour, minute and second in UTC, and nanoseconds. Time order is the order of the fields. */
  datatype Instant = Instant(fields: seq<nat>, nanos: nat)

  const WIDTHS: seq<nat> := [4, 2, 2, 2, 2, 2]
  const SEPARATORS: seq<string> := ["-", "-", "T", ":", ":", ""]

  function Pow10(k: nat): (p: nat)
    ensures p > 0
  {
    if k == 0 then 1 else 10 * Pow10(k - 1)
  }

  predicate FieldsFit(fields: seq<nat>, widths: seq<nat>) {
    |fields| == |widths| && forall i :: 0 <= i < |fields| ==> fields[i] < Pow10(widths[i])
  }

  predicate Valid(t: Instant) { FieldsFit(t.fields, WIDTHS) && t.nanos < Pow10(9) }

  // ---- Text ------------------------------------------------------------------------

  function Digit(d: nat): char
    requires d < 10
  {
    ('0' as int + d) as char
  }

  predicate AreDigits(s: string) { forall i :: 0 <= i < |s| ==> '0' <= s[i] <= '9' }

  /** The last `width` decimal digits. */
  function Pad(n: nat, width: nat): (s: string)
    ensures |s| == width && AreDigits(s)
  {
    if width == 0 then "" else Pad(n / 10, width - 1) + [Digit(n % 10)]
  }

  /** Drop the zeros at the end. */
  function Strip(s: string): (r: string)
    ensures |r| <= |s|
  {
    if s == "" then ""
    else
      var rest := Strip(s[1..]);
      if rest == "" && s[0] == '0' then "" else [s[0]] + rest
  }

  function Whole(fields: seq<nat>, widths: seq<nat>, seps: seq<string>): string
    requires |fields| == |widths| == |seps|
  {
    if fields == [] then "" else Pad(fields[0], widths[0]) + seps[0] + Whole(fields[1..], widths[1..], seps[1..])
  }

  function Fraction(nanos: nat): string {
    var digits := Strip(Pad(nanos, 9));
    if digits == "" then "Z" else "." + digits + "Z"
  }

  function TextOf(t: Instant): string
    requires Valid(t)
  {
    Whole(t.fields, WIDTHS, SEPARATORS) + Fraction(t.nanos)
  }

  // ---- Orders ----------------------------------------------------------------------

  predicate FieldsBefore(a: seq<nat>, b: seq<nat>)
    requires |a| == |b|
  {
    a != [] && (a[0] < b[0] || (a[0] == b[0] && FieldsBefore(a[1..], b[1..])))
  }

  predicate Before(a: Instant, b: Instant)
    requires |a.fields| == |b.fields|
  {
    FieldsBefore(a.fields, b.fields) || (a.fields == b.fields && a.nanos < b.nanos)
  }

  predicate LexLess(a: string, b: string) { LexLeq(a, b) && a != b }

  lemma {:induction false} LexConcat(p: string, q: string, x: string, y: string)
    requires |p| == |q|
    ensures LexLess(p + x, q + y) <==> LexLess(p, q) || (p == q && LexLess(x, y))
    decreases |p|
  {
    if p == "" {
      assert p + x == x && q + y == y;
    } else {
      assert (p + x)[1..] == p[1..] + x && (q + y)[1..] == q[1..] + y;
      assert p == [p[0]] + p[1..] && q == [q[0]] + q[1..];
      assert p + x == [p[0]] + (p[1..] + x) && q + y == [q[0]] + (q[1..] + y);
      LexConcat(p[1..], q[1..], x, y);
    }
  }

  lemma {:induction false} PadOrder(a: nat, b: nat, width: nat)
    requires a < Pow10(width) && b < Pow10(width)
    ensures LexLess(Pad(a, width), Pad(b, width)) <==> a < b
    ensures Pad(a, width) == Pad(b, width) ==> a == b
    decreases width
  {
    if width > 0 {
      PadOrder(a / 10, b / 10, width - 1);
      LexConcat(Pad(a / 10, width - 1), Pad(b / 10, width - 1), [Digit(a % 10)], [Digit(b % 10)]);
      OneDigit(a % 10, b % 10);
      if Pad(a, width) == Pad(b, width) {
        assert Pad(a, width)[..width - 1] == Pad(a / 10, width - 1) &&
          Pad(b, width)[..width - 1] == Pad(b / 10, width - 1);
        assert Pad(a, width)[width - 1] == Digit(a % 10) && Pad(b, width)[width - 1] == Digit(b % 10);
      }
    }
  }

  lemma OneDigit(a: nat, b: nat)
    requires a < 10 && b < 10
    ensures LexLess([Digit(a)], [Digit(b)]) <==> a < b
  {
    assert [Digit(a)][1..] == "" && [Digit(b)][1..] == "";
  }

  lemma {:induction false} WholeOrder(a: seq<nat>, b: seq<nat>, widths: seq<nat>, seps: seq<string>)
    requires FieldsFit(a, widths) && FieldsFit(b, widths) && |seps| == |widths|
    ensures |Whole(a, widths, seps)| == |Whole(b, widths, seps)|
    ensures LexLess(Whole(a, widths, seps), Whole(b, widths, seps)) <==> FieldsBefore(a, b)
    ensures Whole(a, widths, seps) == Whole(b, widths, seps) <==> a == b
    decreases |a|
  {
    if a != [] {
      var pa, pb, ra, rb := Pad(a[0], widths[0]), Pad(b[0], widths[0]),
                            Whole(a[1..], widths[1..], seps[1..]), Whole(b[1..], widths[1..], seps[1..]);
      PadOrder(a[0], b[0], widths[0]);
      WholeOrder(a[1..], b[1..], widths[1..], seps[1..]);
      ThreeParts(pa, pb, seps[0], ra, rb);
      assert a == [a[0]] + a[1..] && b == [b[0]] + b[1..];
    }
  }

  lemma ThreeParts(p: string, q: string, sep: string, x: string, y: string)
    requires |p| == |q|
    ensures LexLess(p + sep + x, q + sep + y) <==> LexLess(p, q) || (p == q && LexLess(x, y))
    ensures p + sep + x == q + sep + y ==> p == q && x == y
  {
    LexConcat(p + sep, q + sep, x, y);
    LexConcat(p, q, sep, sep);
    var s, t := p + sep + x, q + sep + y;
    assert s[..|p|] == p && t[..|q|] == q && s[|p + sep|..] == x && t[|q + sep|..] == y;
  }

  // ---- Within one second -----------------------------------------------------------

  lemma {:induction false} LaterIsNotZero(a: string, b: string)
    requires |a| == |b| && AreDigits(a) && AreDigits(b) && LexLess(a, b)
    ensures Strip(b) != ""
  {
    if a[0] == b[0] {
      assert a == [a[0]] + a[1..] && b == [b[0]] + b[1..];
      LaterIsNotZero(a[1..], b[1..]);
    }
  }

  /** Of two digit strings in order, the stripped texts keep the order unless the earlier is cut down to
      a prefix of the later: then its closing Z stands against a digit. */
  lemma {:induction false} StripOrder(a: string, b: string)
    requires |a| == |b| && AreDigits(a) && AreDigits(b) && LexLess(a, b)
    ensures LexLess(Strip(a) + "Z", Strip(b) + "Z") <==> !(Strip(a) <= Strip(b))
    decreases |a|
  {
    assert a == [a[0]] + a[1..] && b == [b[0]] + b[1..];
    LaterIsNotZero(a, b);
    var sa, sb := Strip(a), Strip(b);
    if sa == "" {
      assert (sb + "Z")[0] == b[0] && sa + "Z" == "Z";
    } else if a[0] < b[0] {
      assert (sa + "Z")[0] == a[0] && (sb + "Z")[0] == b[0];
    } else {
      StripOrder(a[1..], b[1..]);
      var ra, rb := Strip(a[1..]), Strip(b[1..]);
      LaterIsNotZero(a[1..], b[1..]);
      assert sa == [a[0]] + ra && sb == [a[0]] + rb;
      assert sa + "Z" == [a[0]] + (ra + "Z") && sb + "Z" == [a[0]] + (rb + "Z");
      LexConcat([a[0]], [a[0]], ra + "Z", rb + "Z");
      assert ra <= rb <==> sa <= sb by { PrefixCons(a[0], ra, rb); }
    }
  }

  lemma PrefixCons(c: char, a: string, b: string)
    ensures a <= b <==> [c] + a <= [c] + b
  {
    if [c] + a <= [c] + b {
      forall i | 0 <= i < |a| ensures a[i] == b[i] { assert ([c] + a)[i + 1] == ([c] + b)[i + 1]; }
    }
  }

  lemma FractionOrder(a: nat, b: nat)
    requires a < b < Pow10(9)
    ensures LexLess(Fraction(a), Fraction(b)) <==> !(Strip(Pad(a, 9)) <= Strip(Pad(b, 9)))
  {
    var sa, sb := Strip(Pad(a, 9)), Strip(Pad(b, 9));
    PadOrder(a, b, 9);
    LaterIsNotZero(Pad(a, 9), Pad(b, 9));
    StripOrder(Pad(a, 9), Pad(b, 9));
    assert Fraction(b)[0] == '.';
    if sa != "" {
      assert Fraction(a) == "." + (sa + "Z") && Fraction(b) == "." + (sb + "Z");
      LexConcat(".", ".", sa + "Z", sb + "Z");
    }
  }

  // ---- The main results ------------------------------------------------------------

  /** Across seconds the order of texts is the order of time. */
  lemma SecondsCompare(a: Instant, b: Instant)
    requires Valid(a) && Valid(b) && a.fields != b.fields
    ensures LexLess(TextOf(a), TextOf(b)) <==> Before(a, b)
  {
    WholeOrder(a.fields, b.fields, WIDTHS, SEPARATORS);
    LexConcat(Whole(a.fields, WIDTHS, SEPARATORS), Whole(b.fields, WIDTHS, SEPARATORS), Fraction(a.nanos),
      Fraction(b.nanos));
  }

  /** Within one second an earlier instant has the lesser text exactly when its fraction, stripped of zeros,
      is not a prefix of the later one's. */
  lemma WithinSecondIff(a: Instant, b: Instant)
    requires Valid(a) && Valid(b) && a.fields == b.fields && a.nanos < b.nanos
    ensures LexLess(TextOf(a), TextOf(b)) <==> !(Strip(Pad(a.nanos, 9)) <= Strip(Pad(b.nanos, 9)))
  {
    FractionOrder(a.nanos, b.nanos);
    LexConcat(Whole(a.fields, WIDTHS, SEPARATORS), Whole(b.fields, WIDTHS, SEPARATORS), Fraction(a.nanos),
      Fraction(b.nanos));
  }

  /** So whole-second instants always compare as they should, and a whole second never does against a
      fraction of that same second. */
  lemma WholeSecondsCompare(a: Instant, b: Instant)
    requires Valid(a) && Valid(b) && a.nanos == 0
    ensures b.nanos == 0 ==> (LexLess(TextOf(a), TextOf(b)) <==> Before(a, b))
    ensures b.nanos > 0 && a.fields == b.fields ==> Before(a, b) && LexLess(TextOf(b), TextOf(a))
  {
    if a.fields != b.fields {
      SecondsCompare(a, b);
    } else if b.nanos > 0 {
      var w := Whole(a.fields, WIDTHS, SEPARATORS);
      FractionAfterWhole(b.nanos);
      LexConcat(w, w, Fraction(b.nanos), Fraction(0));
    } else {
      SameFieldsNotBefore(a.fields);
    }
  }

  lemma FractionAfterWhole(nanos: nat)
    requires 0 < nanos < 1_000_000_000
    ensures LexLess(Fraction(nanos), Fraction(0))
  {
    PadOrder(0, nanos, 9);
    ZeroStrips(9);
    LaterIsNotZero(Pad(0, 9), Pad(nanos, 9));
    assert Fraction(0) == "Z" && Fraction(nanos)[0] == '.';
  }

  lemma {:induction false} ZeroStrips(width: nat)
    ensures Pad(0, width) == seq(width, _ => '0') && Strip(Pad(0, width)) == ""
  {
    if width > 0 {
      ZeroStrips(width - 1);
      assert Pad(0, width)[1..] == Pad(0, width - 1);
    }
  }

  lemma {:induction false} SameFieldsNotBefore(f: seq<nat>)
    ensures !FieldsBefore(f, f)
  {
    if f != [] { SameFieldsNotBefore(f[1..]); }
  }
}
