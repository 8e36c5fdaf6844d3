/** The countdown's clock text, `MM:SS` or `HH:MM:SS`, and a reader for it. */
module ClockText {
  import opened Wrappers
  import Text
  import Decimal

  /** JavaScript's `%`: the remainder takes the sign of the dividend. */
  function JsRem(a: int, b: int): (r: int)
    requires b > 0
    ensures a >= 0 ==> r == a % b
    ensures -b < r < b
    ensures a < 0 ==> r <= 0
  {
    if a >= 0 then a % b else -((-a) % b)
  }

  /** `String(n).padStart(2, '0')`. */
  function Field(n: int): (s: string)
    ensures |s| >= 2
  {
    Decimal.PadStart(Decimal.IntString(n), 2, '0')
  }

  /** The clock text: `HH:MM:SS` once an hour or more is left, otherwise `MM:SS`.
      Hours use floor division; minutes and seconds use JavaScript's `%`, so a
      negative remainder shows negative fields. */
  function Format(t: int): string
  {
    Clock(t / 3600, JsRem(t, 3600) / 60, JsRem(t, 60))
  }

  /** The text of given hour, minute and second fields; hours show only when positive. */
  function Clock(hours: int, minutes: int, seconds: int): string
  {
    if hours > 0 then Text.Join([Field(hours), Field(minutes), Field(seconds)], ':')
    else Text.Join([Field(minutes), Field(seconds)], ':')
  }

  lemma JoinTwo(a: string, b: string)
    ensures Text.Join([a, b], ':') == a + [':'] + b
  {
    assert [a, b][1..] == [b];
  }

  lemma JoinThree(a: string, b: string, c: string)
    ensures Text.Join([a, b, c], ':') == a + [':'] + b + [':'] + c
  {
    assert [a, b, c][1..] == [b, c];
    JoinTwo(b, c);
  }

  lemma {:induction false} FieldsBounded(t: nat)
    requires t < 360000
    ensures t / 3600 < 100 && (t % 3600) / 60 < 60 && t % 60 < 60
    ensures t < 3600 <==> t / 3600 == 0
  {
  }

  lemma ShapeTwo(a: string, b: string)
    requires |a| == 2 && |b| == 2
    ensures |Text.Join([a, b], ':')| == 5 && Text.Join([a, b], ':')[2] == ':'
  {
    JoinTwo(a, b);
  }

  lemma ShapeThree(a: string, b: string, c: string)
    requires |a| == 2 && |b| == 2 && |c| == 2
    ensures var j := Text.Join([a, b, c], ':');
      |j| == 8 && j[2] == ':' && j[5] == ':'
  {
    JoinThree(a, b, c);
  }

  /** Under an hour the text is `MM:SS`; from one hour to under a hundred it is `HH:MM:SS`. */
  lemma {:induction false} FormatShape(t: int)
    ensures 0 <= t < 3600 ==> |Format(t)| == 5 && Format(t)[2] == ':'
    ensures 3600 <= t < 360000 ==> |Format(t)| == 8 && Format(t)[2] == ':' && Format(t)[5] == ':'
  {
    if 0 <= t < 360000 {
      var h, m, sec := t / 3600, (t % 3600) / 60, t % 60;
      FormatNonNegative(t);
      FieldsBounded(t);
      TwoDigits(h);
      TwoDigits(m);
      TwoDigits(sec);
      if h > 0 {
        ShapeThree(Field(h), Field(m), Field(sec));
      } else {
        ShapeTwo(Field(m), Field(sec));
      }
    }
  }

  lemma {:induction false} TwoDigits(n: int)
    requires 0 <= n < 100
    ensures |Field(n)| == 2
  {
    if n >= 10 {
      assert Decimal.Dec(n) == Decimal.Dec(n / 10) + [Decimal.DigitChar(n % 10)];
    }
  }

  /** Reads `MM:SS` or `H…H:MM:SS` back into seconds. */
  function ParseClock(s: string): (r: Option<int>)
    ensures r.Some? ==> r.value >= 0
  {
    ParseFieldList(Text.Split(s, ':'))
  }

  function ParseFieldList(parts: seq<string>): (r: Option<int>)
    ensures r.Some? ==> r.value >= 0
  {
    if |parts| == 2 && Decimal.AllDigits(parts[0]) && Decimal.AllDigits(parts[1]) then
      Some(Decimal.Value(parts[0]) * 60 + Decimal.Value(parts[1]))
    else if |parts| == 3 && Decimal.AllDigits(parts[0]) && Decimal.AllDigits(parts[1]) && Decimal.AllDigits(parts[2]) then
      Some(Decimal.Value(parts[0]) * 3600 + Decimal.Value(parts[1]) * 60 + Decimal.Value(parts[2]))
    else None
  }

  lemma {:induction false} ColonFree(n: nat)
    ensures Readable(Field(n), n)
  {
    Decimal.PaddedValue(n, 2);
  }

  lemma {:induction false} ClockArithmetic(t: nat)
    ensures (t / 3600) * 3600 + ((t % 3600) / 60) * 60 + t % 60 == t
    ensures t / 3600 == 0 ==> ((t % 3600) / 60) * 60 + t % 60 == t
  {
    var h := t / 3600;
    var r := t % 3600;
    var m := r / 60;
    assert t == h * 3600 + r;
    assert r == m * 60 + r % 60;
    assert t % 60 == r % 60 by {
      assert t == (h * 60 + m) * 60 + r % 60;
    }
  }

  /** What `ColonFree` gives about the three fields, as facts about plain strings. */
  predicate Readable(a: string, n: nat)
  {
    Decimal.AllDigits(a) && ':' !in a && Decimal.Value(a) == n
  }

  lemma SplitThree(a: string, b: string, c: string)
    requires ':' !in a && ':' !in b && ':' !in c
    ensures Text.Split(Text.Join([a, b, c], ':'), ':') == [a, b, c]
  {
    var parts := [a, b, c];
    assert forall p :: p in parts ==> ':' !in p;
    Text.SplitJoin(parts, ':');
  }

  lemma SplitTwo(a: string, b: string)
    requires ':' !in a && ':' !in b
    ensures Text.Split(Text.Join([a, b], ':'), ':') == [a, b]
  {
    var parts := [a, b];
    assert forall p :: p in parts ==> ':' !in p;
    Text.SplitJoin(parts, ':');
  }

  lemma ReadTwo(a: string, b: string, m: nat, sec: nat)
    requires Readable(a, m) && Readable(b, sec)
    ensures ParseClock(Text.Join([a, b], ':')) == Some(m * 60 + sec)
  {
    SplitTwo(a, b);
  }

  lemma ReadThree(a: string, b: string, c: string, h: nat, m: nat, sec: nat)
    requires Readable(a, h) && Readable(b, m) && Readable(c, sec)
    ensures ParseClock(Text.Join([a, b, c], ':')) == Some(h * 3600 + m * 60 + sec)
  {
    SplitThree(a, b, c);
  }

  /** For a non-negative time both remainders are the ordinary ones. */
  lemma FormatNonNegative(t: nat)
    ensures Format(t) == Clock(t / 3600, (t % 3600) / 60, t % 60)
  {
    assert JsRem(t, 3600) == t % 3600 && JsRem(t, 60) == t % 60;
  }

  /** The clock text of a non-negative remaining time reads back as that time. */
  lemma {:induction false} FormatRoundTrip(t: nat)
    ensures ParseClock(Format(t)) == Some(t)
  {
    var h, m, sec := t / 3600, (t % 3600) / 60, t % 60;
    FormatNonNegative(t);
    ClockArithmetic(t);
    ColonFree(m);
    ColonFree(sec);
    if h > 0 {
      ColonFree(h);
      ReadsBackThree(Format(t), t, Field(h), Field(m), Field(sec), h, m, sec);
    } else {
      ReadsBackTwo(Format(t), t, Field(m), Field(sec), m, sec);
    }
  }

  /** A text made of three readable fields of `t` reads back as `t`. */
  lemma ReadsBackThree(text: string, t: nat, a: string, b: string, c: string, h: nat, m: nat, sec: nat)
    requires text == Text.Join([a, b, c], ':')
    requires Readable(a, h) && Readable(b, m) && Readable(c, sec)
    requires h * 3600 + m * 60 + sec == t
    ensures ParseClock(text) == Some(t)
  {
    ReadThree(a, b, c, h, m, sec);
  }

  /** A text made of two readable fields of `t` reads back as `t`. */
  lemma ReadsBackTwo(text: string, t: nat, a: string, b: string, m: nat, sec: nat)
    requires text == Text.Join([a, b], ':')
    requires Readable(a, m) && Readable(b, sec)
    requires m * 60 + sec == t
    ensures ParseClock(text) == Some(t)
  {
    ReadTwo(a, b, m, sec);
  }

  /** A negative time, possible only when the countdown starts below zero, shows
      the sign in both fields, because minutes and seconds keep the dividend's sign. */
  lemma NegativeTimeText()
    ensures Format(-5) == "-1:-5"
  {
    NegativeFields();
    NegativeFieldText();
    NegativeJoin(Format(-5), Field(-1), Field(-5));
  }

  lemma NegativeJoin(text: string, a: string, b: string)
    requires text == Text.Join([a, b], ':') && a == "-1" && b == "-5"
    ensures text == "-1:-5"
  {
    JoinTwo(a, b);
  }

  lemma NegativeFields()
    ensures Format(-5) == Text.Join([Field(-1), Field(-5)], ':')
  {
    assert -5 / 3600 == -1 by { assert -1 * 3600 + 3595 == -5; }
    assert JsRem(-5, 3600) == -5 && JsRem(-5, 60) == -5;
    assert -5 / 60 == -1 by { assert -1 * 60 + 55 == -5; }
  }

  lemma NegativeFieldText()
    ensures Field(-1) == "-1" && Field(-5) == "-5"
  {
    assert Decimal.Dec(1) == "1" && Decimal.Dec(5) == "5";
  }
}
