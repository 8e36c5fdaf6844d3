/** What every marketplace scraper shares: the listing record, reading a price out
    of display text, navigation with retries, and keeping the priced results of a
    search page. The browser is outside the model: a navigation attempt's outcome
    and a page item's parse come in as values. */
module BaseSite {
  import opened Wrappers
  import Decimal

  /** A product listing; `price` is in yen. */
  datatype Listing = Listing(name: string, price: int, condition: string, url: string, source: string)

  /** The digit characters of `s`, in order (`re.sub(r"[^\d]", "", s)`). */
  function Digits(s: string): (r: string)
    ensures Decimal.AllDigits(r)
    ensures |r| <= |s|
  {
    if |s| == 0 then ""
    else (if Decimal.IsDigit(s[0]) then [s[0]] else "") + Digits(s[1..])
  }

  /** `_parse_price_text`: the number the digits of `text` spell, 0 when there are none. */
  function ParsePriceText(text: string): (r: nat)
    ensures Digits(text) == "" ==> r == 0
    ensures Digits(text) != "" ==> r == Decimal.Value(Digits(text))
  {
    var cleaned := Digits(text);
    if cleaned == "" then 0 else Decimal.Value(cleaned)
  }

  lemma {:induction false} DigitsAppend(a: string, b: string)
    ensures Digits(a + b) == Digits(a) + Digits(b)
    decreases |a|
  {
    if |a| > 0 {
      assert (a + b)[1..] == a[1..] + b;
      DigitsAppend(a[1..], b);
    } else {
      assert a + b == b;
    }
  }

  lemma {:induction false} DigitsOfDigits(s: string)
    requires Decimal.AllDigits(s)
    ensures Digits(s) == s
    decreases |s|
  {
    if |s| > 0 {
      DigitsOfDigits(s[1..]);
    }
  }

  /** Inserting a character that is not a digit anywhere leaves the price alone. */
  lemma NonDigitIgnored(a: string, c: char, b: string)
    requires !Decimal.IsDigit(c)
    ensures ParsePriceText(a + [c] + b) == ParsePriceText(a + b)
  {
    DigitsAppend(a + [c], b);
    DigitsAppend(a, [c]);
    DigitsAppend(a, b);
    assert [c][1..] == [];
    assert Digits([c]) == "";
    assert Digits(a + [c]) == Digits(a);
    assert Digits(a + [c] + b) == Digits(a + b);
  }

  /** Text around a rendered number that holds no digits does not change it:
      `¥1234`, `1234円` and `1234` all read as 1234. */
  lemma {:induction false} PriceRoundTrip(prefix: string, n: nat, suffix: string)
    requires forall i :: 0 <= i < |prefix| ==> !Decimal.IsDigit(prefix[i])
    requires forall i :: 0 <= i < |suffix| ==> !Decimal.IsDigit(suffix[i])
    ensures ParsePriceText(prefix + Decimal.Dec(n) + suffix) == n
  {
    var d := Decimal.Dec(n);
    DigitsAppend(prefix + d, suffix);
    DigitsAppend(prefix, d);
    NoDigits(prefix);
    NoDigits(suffix);
    DigitsOfDigits(d);
    Decimal.ValueOfDec(n);
    assert Digits(prefix + d + suffix) == d;
  }

  lemma {:induction false} NoDigits(s: string)
    requires forall i :: 0 <= i < |s| ==> !Decimal.IsDigit(s[i])
    ensures Digits(s) == ""
    decreases |s|
  {
    if |s| > 0 {
      NoDigits(s[1..]);
    }
  }

  /** Text without digits reads as 0. */
  lemma NoDigitsIsZero(text: string)
    requires forall i :: 0 <= i < |text| ==> !Decimal.IsDigit(text[i])
    ensures ParsePriceText(text) == 0
  {
    NoDigits(text);
  }

  /** The two documented examples: a thousands separator is skipped. */
  lemma DocumentedExamples()
    ensures ParsePriceText("¥1,234") == 1234
    ensures ParsePriceText("1,234円") == 1234
  {
    Dec1234();
    YenSignExample();
    YenSuffixExample();
  }

  lemma Dec1234()
    ensures Decimal.Dec(1234) == "1234"
  {
  }

  lemma YenSignExample()
    requires Decimal.Dec(1234) == "1234"
    ensures ParsePriceText("¥1,234") == 1234
  {
    NonDigitIgnored("¥1", ',', "234");
    assert "¥1,234" == "¥1" + [','] + "234";
    assert "¥1" + "234" == "¥" + Decimal.Dec(1234) + "";
    PriceRoundTrip("¥", 1234, "");
  }

  lemma YenSuffixExample()
    requires Decimal.Dec(1234) == "1234"
    ensures ParsePriceText("1,234円") == 1234
  {
    NonDigitIgnored("1", ',', "234円");
    assert "1,234円" == "1" + [','] + "234円";
    assert "1" + "234円" == "" + Decimal.Dec(1234) + "円";
    PriceRoundTrip("", 1234, "円");
  }

  /** `_safe_goto`: up to `maxRetries` attempts, stopping at the first success and
      sleeping between attempts but never after the last. `navigate(i)` is whether
      attempt `i` loads the page. Returns the outcome, the attempts made and the
      sleeps taken. */
  method SafeGoto(maxRetries: int, navigate: nat -> bool) returns (ok: bool, attempts: nat, sleeps: nat)
    ensures ok <==> exists i :: 0 <= i < maxRetries && navigate(i)
    ensures ok ==> 1 <= attempts <= maxRetries && navigate(attempts - 1)
    ensures forall j :: 0 <= j < attempts - 1 ==> !navigate(j)
    ensures !ok ==> attempts == if maxRetries > 0 then maxRetries else 0
    ensures sleeps == if attempts == 0 then 0 else attempts - 1
  {
    ok, attempts, sleeps := false, 0, 0;
    var attempt := 0;
    while attempt < maxRetries
      invariant 0 <= attempt && (maxRetries > 0 ==> attempt <= maxRetries)
      invariant maxRetries <= 0 ==> attempt == 0
      invariant attempts == attempt
      invariant forall j :: 0 <= j < attempt ==> !navigate(j)
      invariant attempt < maxRetries ==> sleeps == attempt
      invariant attempt >= maxRetries ==> sleeps == if attempt == 0 then 0 else attempt - 1
    {
      attempts := attempts + 1;
      if navigate(attempt) {
        ok := true;
        return;
      }
      if attempt < maxRetries - 1 {
        sleeps := sleeps + 1;
      }
      attempt := attempt + 1;
    }
  }

  /** Python's `items[:n]`: a negative `n` counts from the end. */
  function Head<T>(items: seq<T>, n: int): (r: seq<T>)
    ensures n >= 0 ==> |r| == if n < |items| then n else |items|
    ensures |r| <= |items| && r == items[..|r|]
  {
    if n >= 0 then (if n < |items| then items[..n] else items)
    else if -n < |items| then items[..|items| + n] else []
  }

  /** The search loop of both scrapers: of the first `maxResults` items, keep the
      parsed listings with a positive price, in page order. An item that fails to
      parse is None. */
  function KeepPriced(parsed: seq<Option<Listing>>): (r: seq<Listing>)
    ensures forall l :: l in r ==> l.price > 0 && Some(l) in parsed
    ensures |r| <= |parsed|
  {
    if |parsed| == 0 then []
    else
      var rest := KeepPriced(parsed[1..]);
      if parsed[0].Some? && parsed[0].value.price > 0 then [parsed[0].value] + rest else rest
  }

  function CollectListings(parsed: seq<Option<Listing>>, maxResults: int): (r: seq<Listing>)
    ensures forall l :: l in r ==> l.price > 0
    ensures maxResults >= 0 ==> |r| <= maxResults
  {
    KeepPriced(Head(parsed, maxResults))
  }

  /** A priced listing among the first `maxResults` items is kept. */
  lemma {:induction false} PricedListingKept(parsed: seq<Option<Listing>>, i: nat)
    requires i < |parsed| && parsed[i].Some? && parsed[i].value.price > 0
    ensures parsed[i].value in KeepPriced(parsed)
    decreases i
  {
    if i > 0 {
      PricedListingKept(parsed[1..], i - 1);
    }
  }
}
