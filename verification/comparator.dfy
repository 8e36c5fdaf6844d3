/** The arbitrage comparator: for each second-hand listing, the Amazon listing whose
    name shares the most words with it (overlap over union, strictly above 0.3) and
    costs more; the profit after Amazon's fee and shipping; the opportunities that
    clear both thresholds, most profitable first. Percentages are exact rationals
    (`real`); `found_at` is the clock reading, passed in. */
module Comparator {
  import opened Wrappers
  import Text
  import BaseSite

  type Listing = BaseSite.Listing

  /** The comparator's settings, with the defaults of its constructor. */
  datatype Settings = Settings(feePercent: real, shipping: int, minProfitYen: int, minProfitPercent: real)

  const Defaults := Settings(10.0, 500, 1000, 15.0)

  /** The word-overlap score a match must exceed. */
  const MatchThreshold: real := 0.3

  datatype Opportunity = Opportunity(
    amazon: Listing, source: Listing, grossProfit: int, netProfit: int,
    profitPercent: real, foundAt: int)

  // ---------------------------------------------------------------------------
  // Name normalisation (`_normalize_name`)

  /** The bracket characters turned into spaces: 【】[]()（）「」『』. */
  predicate IsBracket(c: char) {
    c in "【】[]()（）「」『』"
  }

  function Debracket(s: string): (r: string)
    ensures |r| == |s|
    ensures forall i :: 0 <= i < |s| ==> r[i] == if IsBracket(s[i]) then ' ' else s[i]
  {
    seq(|s|, i requires 0 <= i < |s| => if IsBracket(s[i]) then ' ' else s[i])
  }

  /** `re.sub(r"\s+", " ", s)`: every maximal run of spaces becomes one blank. */
  function Collapse(s: string): (r: string)
    decreases |s|
    ensures forall i :: 0 <= i < |r| ==> r[i] == ' ' || (!Text.IsSpace(r[i]) && r[i] in s)
    ensures |s| > 0 && Text.IsSpace(s[0]) ==> |r| > 0 && r[0] == ' '
    ensures |s| > 0 && !Text.IsSpace(s[0]) ==> |r| > 0 && r[0] == s[0]
    ensures |s| == 0 ==> r == ""
    ensures forall i :: 0 <= i < |r| - 1 ==> !(r[i] == ' ' && r[i + 1] == ' ')
  {
    if |s| == 0 then ""
    else if Text.IsSpace(s[0]) then " " + Collapse(s[Text.LeadingSpaces(s)..])
    else
      var k := Text.WordLen(s);
      var r := s[..k] + Collapse(s[k..]);
      assert forall i :: 0 <= i < k ==> r[i] == s[i];
      r
  }

  /** Collapsing space runs keeps the words. */
  lemma {:induction false} WordsCollapse(s: string)
    ensures Text.Words(Collapse(s)) == Text.Words(s)
    decreases |s|
  {
    if |s| > 0 {
      if Text.IsSpace(s[0]) {
        var a := Text.LeadingSpaces(s);
        WordsCollapse(s[a..]);
        Text.WordsSkipSpaces(s, a);
        assert (" " + Collapse(s[a..]))[1..] == Collapse(s[a..]);
      } else {
        var k := Text.WordLen(s);
        WordsCollapse(s[k..]);
        Text.WordThenRest(s[..k], Collapse(s[k..]));
      }
    }
  }

  /** `_normalize_name`: lower-cased, brackets blanked, space runs collapsed, trimmed. */
  function Normalize(name: string): (r: string)
    ensures forall i :: 0 <= i < |r| ==> !IsBracket(r[i]) && !('A' <= r[i] <= 'Z')
    ensures forall i :: 0 <= i < |r| && Text.IsSpace(r[i]) ==> r[i] == ' '
  {
    var d := Debracket(Text.Lower(name));
    var c := Collapse(d);
    StripChars(c);
    DebracketClean(name);
    CleanChars(d, c, Text.Strip(c));
    Text.Strip(c)
  }

  /** Characters drawn from a collapsed bracket-free lower-case text keep both facts. */
  lemma CleanChars(d: string, c: string, r: string)
    requires forall ch :: ch in d ==> !IsBracket(ch) && !('A' <= ch <= 'Z')
    requires forall i :: 0 <= i < |c| ==> c[i] == ' ' || (!Text.IsSpace(c[i]) && c[i] in d)
    requires forall i :: 0 <= i < |r| ==> r[i] in c
    ensures forall i :: 0 <= i < |r| ==> !IsBracket(r[i]) && !('A' <= r[i] <= 'Z')
    ensures forall i :: 0 <= i < |r| && Text.IsSpace(r[i]) ==> r[i] == ' '
  {
    assert !IsBracket(' ');
    forall i | 0 <= i < |r| ensures !IsBracket(r[i]) && !('A' <= r[i] <= 'Z') && (Text.IsSpace(r[i]) ==> r[i] == ' ') {
      var j :| 0 <= j < |c| && c[j] == r[i];
    }
  }

  lemma StripChars(c: string)
    ensures forall i :: 0 <= i < |Text.Strip(c)| ==> Text.Strip(c)[i] in c
  {
    var r := Text.Strip(c);
    var j: nat :| j <= |c| && Text.OccursAt(c, r, j);
    forall i | 0 <= i < |r| ensures r[i] in c {
      assert r[i] == c[j + i];
    }
  }

  lemma DebracketClean(name: string)
    ensures forall ch :: ch in Debracket(Text.Lower(name)) ==> !IsBracket(ch) && !('A' <= ch <= 'Z')
  {
    var d := Debracket(Text.Lower(name));
    forall ch | ch in d ensures !IsBracket(ch) && !('A' <= ch <= 'Z') {
      var i :| 0 <= i < |d| && d[i] == ch;
      assert Text.Lower(name)[i] == Text.LowerChar(name[i]);
    }
  }

  /** Normalising keeps the words of the name, lower-cased and with brackets acting
      as separators. */
  lemma NormalizeWords(name: string)
    ensures Text.Words(Normalize(name)) == Text.Words(Debracket(Text.Lower(name)))
  {
    var d := Debracket(Text.Lower(name));
    Text.WordsStrip(Collapse(d));
    WordsCollapse(d);
  }

  /** `set(_normalize_name(name).split())`. */
  function WordSet(name: string): set<string> {
    set w | w in Text.Words(Normalize(name))
  }

  /** Overlap over union of two word sets, 0 when both are empty. */
  function Score(a: set<string>, b: set<string>): (s: real)
    ensures 0.0 <= s <= 1.0
  {
    SubsetCard(a * b, a + b);
    if |a + b| > 0 then (|a * b| as real) / (|a + b| as real) else 0.0
  }

  lemma {:induction false} SubsetCard<T>(x: set<T>, y: set<T>)
    requires x <= y
    ensures |x| <= |y|
    decreases |x|
  {
    if x != {} {
      var e :| e in x;
      SubsetCard(x - {e}, y - {e});
    }
  }

  /** The score does not depend on which side is the source. */
  lemma ScoreSymmetric(a: set<string>, b: set<string>)
    ensures Score(a, b) == Score(b, a)
  {
    assert a * b == b * a && a + b == b + a;
  }

  lemma ScoreSelf(a: set<string>)
    requires |a| > 0
    ensures Score(a, a) == 1.0
  {
    assert a * a == a && a + a == a;
  }

  /** Disjoint word sets score 0 and so never match. */
  lemma ScoreDisjoint(a: set<string>, b: set<string>)
    requires a * b == {}
    ensures Score(a, b) == 0.0
  {
  }

  // ---------------------------------------------------------------------------
  // Best match (`_find_best_amazon_match`)

  function ScoreOf(words: set<string>, a: Listing): real {
    Score(words, WordSet(a.name))
  }

  /** The score of every Amazon listing against the source's words, in order. */
  function Scores(words: set<string>, amazons: seq<Listing>): (r: seq<real>)
    ensures |r| == |amazons|
    ensures forall j :: 0 <= j < |amazons| ==> r[j] == ScoreOf(words, amazons[j])
  {
    seq(|amazons|, j requires 0 <= j < |amazons| => ScoreOf(words, amazons[j]))
  }

  /** Listing `j` is one the source could be resold at: enough shared words, and dearer. */
  predicate Eligible(scores: seq<real>, price: int, amazons: seq<Listing>, j: nat)
    requires |scores| == |amazons| && j < |amazons|
  {
    scores[j] > MatchThreshold && price < amazons[j].price
  }

  /** `k` holds the highest score among the eligible listings, and no earlier
      eligible listing reaches it. */
  predicate IsBest(scores: seq<real>, price: int, amazons: seq<Listing>, k: nat)
    requires |scores| == |amazons|
  {
    k < |amazons| && Eligible(scores, price, amazons, k)
    && (forall j :: 0 <= j < |amazons| && Eligible(scores, price, amazons, j) ==> scores[j] <= scores[k])
    && (forall j :: 0 <= j < k && Eligible(scores, price, amazons, j) ==> scores[j] < scores[k])
  }

  /** The loop's state after the first `i` listings. */
  predicate LoopState(scores: seq<real>, price: int, amazons: seq<Listing>, i: nat,
                      best: Option<nat>, bestScore: real) {
    |scores| == |amazons| && i <= |amazons|
    && (best.None? ==> bestScore == 0.0 && forall j :: 0 <= j < i ==> !Eligible(scores, price, amazons, j))
    && (best.Some? ==>
          (best.value < i && Eligible(scores, price, amazons, best.value)
           && bestScore == scores[best.value]
           && (forall j :: 0 <= j < i && Eligible(scores, price, amazons, j) ==> scores[j] <= bestScore)
           && (forall j :: 0 <= j < best.value && Eligible(scores, price, amazons, j) ==> scores[j] < bestScore)))
  }

  /** The scan from listing `i` on: a listing replaces the best so far only when it
      scores above the threshold and strictly above the best, and costs more. */
  function BestFrom(scores: seq<real>, price: int, amazons: seq<Listing>, i: nat,
                    best: Option<nat>, bestScore: real): (r: Option<nat>)
    requires LoopState(scores, price, amazons, i, best, bestScore)
    decreases |amazons| - i
    ensures r.Some? ==> IsBest(scores, price, amazons, r.value)
    ensures r.None? ==> forall j :: 0 <= j < |amazons| ==> !Eligible(scores, price, amazons, j)
  {
    if i == |amazons| then
      best
    else
      var score := scores[i];
      if score > MatchThreshold && score > bestScore && price < amazons[i].price then
        LoopTake(scores, price, amazons, i, best, bestScore);
        BestFrom(scores, price, amazons, i + 1, Some(i), score)
      else
        LoopKeep(scores, price, amazons, i, best, bestScore);
        BestFrom(scores, price, amazons, i + 1, best, bestScore)
  }

  lemma LoopTake(scores: seq<real>, price: int, amazons: seq<Listing>, i: nat, best: Option<nat>, bestScore: real)
    requires LoopState(scores, price, amazons, i, best, bestScore) && i < |amazons|
    requires scores[i] > MatchThreshold && scores[i] > bestScore && price < amazons[i].price
    ensures LoopState(scores, price, amazons, i + 1, Some(i), scores[i])
  {
  }

  lemma LoopKeep(scores: seq<real>, price: int, amazons: seq<Listing>, i: nat, best: Option<nat>, bestScore: real)
    requires LoopState(scores, price, amazons, i, best, bestScore) && i < |amazons|
    requires !(scores[i] > MatchThreshold && scores[i] > bestScore && price < amazons[i].price)
    ensures LoopState(scores, price, amazons, i + 1, best, bestScore)
  {
  }

  /** `_find_best_amazon_match`: the position of the match, if any. A source name
      with fewer than two distinct words never matches. */
  function BestMatch(source: Listing, amazons: seq<Listing>): (r: Option<nat>)
    ensures |WordSet(source.name)| < 2 ==> r.None?
    ensures |WordSet(source.name)| >= 2 && r.Some? ==>
      IsBest(Scores(WordSet(source.name), amazons), source.price, amazons, r.value)
    ensures |WordSet(source.name)| >= 2 && r.None? ==>
      forall j :: 0 <= j < |amazons| ==> !Eligible(Scores(WordSet(source.name), amazons), source.price, amazons, j)
  {
    var words := WordSet(source.name);
    if |words| < 2 then None else BestFrom(Scores(words, amazons), source.price, amazons, 0, None, 0.0)
  }

  /** Exactly one listing can be best. */
  lemma BestIsUnique(scores: seq<real>, price: int, amazons: seq<Listing>, k: nat, m: nat)
    requires |scores| == |amazons|
    requires IsBest(scores, price, amazons, k) && IsBest(scores, price, amazons, m)
    ensures k == m
  {
  }

  // ---------------------------------------------------------------------------
  // Profit (`_calculate_profit`)

  /** Python's `int(x)` on a float: truncation toward zero. */
  function Trunc(x: real): (n: int)
    ensures x >= 0.0 ==> n as real <= x < n as real + 1.0
    ensures x < 0.0 ==> n as real - 1.0 < x <= n as real
  {
    if x >= 0.0 then x.Floor else -((-x).Floor)
  }

  /** Rounding to the nearest integer, ties to the even one, as Python's `round`. */
  function RoundHalfEven(x: real): (n: int)
    ensures -0.5 <= n as real - x <= 0.5
  {
    var f := x.Floor;
    var d := x - f as real;
    if d < 0.5 then f
    else if d > 0.5 then f + 1
    else if f % 2 == 0 then f else f + 1
  }

  /** `round(x, 2)` on the exact value. */
  function Round2(x: real): (r: real)
    ensures -0.005 <= r - x <= 0.005
  {
    RoundHalfEven(x * 100.0) as real / 100.0
  }

  /** Amazon's fee: the percentage of the price, truncated to whole yen. */
  function Fee(price: int, percent: real): int {
    Trunc(price as real * percent / 100.0)
  }

  /** For a non-negative price and rate the fee is the rate's share of the price, in
      whole yen, rounded down. */
  lemma FeeBounds(price: int, percent: real)
    requires price >= 0 && percent >= 0.0
    ensures 0 <= Fee(price, percent)
    ensures Fee(price, percent) as real <= price as real * percent / 100.0 < Fee(price, percent) as real + 1.0
  {
  }

  /** `_calculate_profit`: the net profit after fee, purchase and shipping, and that
      profit as a percentage of the purchase price (0 for a free purchase). */
  function CalculateProfit(c: Settings, amazonPrice: int, sourcePrice: int): (r: (int, real))
    ensures r.0 + Fee(amazonPrice, c.feePercent) + sourcePrice + c.shipping == amazonPrice
    ensures sourcePrice <= 0 ==> r.1 == 0.0
    ensures sourcePrice > 0 ==>
      -0.005 <= r.1 - (r.0 as real / sourcePrice as real * 100.0) <= 0.005
  {
    var net := amazonPrice - Fee(amazonPrice, c.feePercent) - sourcePrice - c.shipping;
    var pct := if sourcePrice > 0 then Round2(net as real / sourcePrice as real * 100.0) else 0.0;
    (net, pct)
  }

  /** With the default settings, a 10000 yen resale of a 5000 yen purchase nets 3500. */
  lemma DefaultProfitExample()
    ensures CalculateProfit(Defaults, 10000, 5000) == (3500, 70.0)
  {
    assert Fee(10000, 10.0) == 1000;
    assert 3500 as real / 5000 as real * 100.0 == 70.0;
    assert RoundHalfEven(7000.0) == 7000;
  }

  // ---------------------------------------------------------------------------
  // Comparison (`compare`)

  predicate Profitable(c: Settings, o: Opportunity) {
    o.netProfit >= c.minProfitYen && o.profitPercent >= c.minProfitPercent
  }

  /** The opportunity a source listing yields, if its match clears both thresholds. */
  function OpportunityOf(c: Settings, amazons: seq<Listing>, s: Listing, now: int): (r: Option<Opportunity>)
    ensures r.Some? ==> Profitable(c, r.value) && r.value.source == s && r.value.amazon in amazons
    ensures r.Some? ==> r.value.grossProfit == r.value.amazon.price - s.price > 0
  {
    match BestMatch(s, amazons)
    case None => None
    case Some(k) =>
      var a := amazons[k];
      var (net, pct) := CalculateProfit(c, a.price, s.price);
      var o := Opportunity(a, s, a.price - s.price, net, pct, now);
      if Profitable(c, o) then Some(o) else None
  }

  /** The found opportunities, in source order. */
  function Found(opps: seq<Option<Opportunity>>): (r: seq<Opportunity>)
    ensures |r| <= |opps|
    ensures forall o :: o in r ==> Some(o) in opps
  {
    if |opps| == 0 then []
    else
      var rest := Found(opps[1..]);
      if opps[0].Some? then [opps[0].value] + rest else rest
  }

  /** Nothing found is dropped. */
  lemma {:induction false} FoundComplete(opps: seq<Option<Opportunity>>, i: nat)
    requires i < |opps| && opps[i].Some?
    ensures opps[i].value in Found(opps)
    decreases i
  {
    if i > 0 {
      FoundComplete(opps[1..], i - 1);
    }
  }

  /** What each source listing yields, in order. */
  function Yields(c: Settings, amazons: seq<Listing>, sources: seq<Listing>, now: int): (r: seq<Option<Opportunity>>)
    ensures |r| == |sources|
    ensures forall i :: 0 <= i < |sources| ==> r[i] == OpportunityOf(c, amazons, sources[i], now)
  {
    seq(|sources|, i requires 0 <= i < |sources| => OpportunityOf(c, amazons, sources[i], now))
  }

  /** The opportunities in source order, before sorting: each is what its own source
      listing yields. */
  function Candidates(c: Settings, amazons: seq<Listing>, sources: seq<Listing>, now: int): (r: seq<Opportunity>)
    ensures |r| <= |sources|
    ensures forall o :: o in r ==> o.source in sources && OpportunityOf(c, amazons, o.source, now) == Some(o)
  {
    var ys := Yields(c, amazons, sources, now);
    var r := Found(ys);
    forall o | o in r ensures o.source in sources && OpportunityOf(c, amazons, o.source, now) == Some(o) {
      var i :| 0 <= i < |ys| && ys[i] == Some(o);
    }
    r
  }

  predicate SortedByNet(s: seq<Opportunity>) {
    forall i, j :: 0 <= i < j < |s| ==> s[i].netProfit >= s[j].netProfit
  }

  /** Places `o` after every entry with at least its profit, so equal profits keep
      their order, as Python's stable sort does with `reverse=True`. */
  function Insert(o: Opportunity, s: seq<Opportunity>): (r: seq<Opportunity>)
    requires SortedByNet(s)
    ensures SortedByNet(r)
    ensures multiset(r) == multiset(s) + multiset{o}
    ensures forall x :: x in r ==> x == o || x in s
    ensures |r| == |s| + 1
  {
    if |s| == 0 then [o]
    else if s[0].netProfit >= o.netProfit then
      var t := Insert(o, s[1..]);
      assert s == [s[0]] + s[1..];
      HeadBoundsInsert(o, s, t);
      [s[0]] + t
    else [o] + s
  }

  lemma HeadBoundsInsert(o: Opportunity, s: seq<Opportunity>, t: seq<Opportunity>)
    requires SortedByNet(s) && SortedByNet(t) && |s| > 0 && s[0].netProfit >= o.netProfit
    requires forall x :: x in t ==> x == o || x in s[1..]
    ensures SortedByNet([s[0]] + t)
  {
    forall j | 0 <= j < |t| ensures s[0].netProfit >= t[j].netProfit {
      if t[j] != o {
        assert t[j] in s[1..];
        var k :| 0 <= k < |s[1..]| && s[1..][k] == t[j];
        assert s[k + 1] == t[j];
      }
    }
    var r := [s[0]] + t;
    forall i, j | 0 <= i < j < |r| ensures r[i].netProfit >= r[j].netProfit {
      if i > 0 {
        assert r[i] == t[i - 1] && r[j] == t[j - 1];
      } else {
        assert r[j] == t[j - 1];
      }
    }
  }

  /** `sort(key=net_profit, reverse=True)`. */
  function SortByNet(s: seq<Opportunity>): (r: seq<Opportunity>)
    ensures SortedByNet(r)
    ensures multiset(r) == multiset(s)
    ensures |r| == |s|
    ensures forall x :: x in r ==> x in s
  {
    if |s| == 0 then []
    else
      assert s == s[..|s| - 1] + [s[|s| - 1]];
      Insert(s[|s| - 1], SortByNet(s[..|s| - 1]))
  }

  // ---------------------------------------------------------------------------
  // Stability: Python's sort keeps equal keys in their original order

  /** The entries of `s` whose net profit is `v`, in order. */
  function WithNet(s: seq<Opportunity>, v: int): (r: seq<Opportunity>)
    ensures forall x :: x in r ==> x in s && x.netProfit == v
  {
    if |s| == 0 then []
    else (if s[0].netProfit == v then [s[0]] else []) + WithNet(s[1..], v)
  }

  lemma {:induction false} WithNetAppend(a: seq<Opportunity>, b: seq<Opportunity>, v: int)
    ensures WithNet(a + b, v) == WithNet(a, v) + WithNet(b, v)
    decreases |a|
  {
    if |a| == 0 {
      assert a + b == b;
    } else {
      assert (a + b)[1..] == a[1..] + b;
      WithNetAppend(a[1..], b, v);
    }
  }

  /** Entries that all earn less than `v` have none earning exactly `v`. */
  lemma {:induction false} WithNetBelow(s: seq<Opportunity>, v: int)
    requires forall i :: 0 <= i < |s| ==> s[i].netProfit < v
    ensures WithNet(s, v) == []
    decreases |s|
  {
    if |s| > 0 {
      WithNetBelow(s[1..], v);
    }
  }

  /** Inserting places the new entry after every entry of equal profit. */
  lemma {:induction false} InsertStable(o: Opportunity, s: seq<Opportunity>, v: int)
    requires SortedByNet(s)
    ensures WithNet(Insert(o, s), v) == WithNet(s, v) + (if o.netProfit == v then [o] else [])
    decreases |s|
  {
    if |s| == 0 {
      WithNetSingle(o, v);
    } else if s[0].netProfit >= o.netProfit {
      var t := Insert(o, s[1..]);
      InsertStable(o, s[1..], v);
      assert ([s[0]] + t)[1..] == t;
    } else {
      assert ([o] + s)[1..] == s;
      if o.netProfit == v {
        WithNetBelow(s, v);
      }
    }
  }

  /** The sort is stable: for every profit, the entries earning it come out in the
      order they went in, as with Python's `list.sort(reverse=True)`. */
  lemma {:induction false} SortStable(s: seq<Opportunity>, v: int)
    ensures WithNet(SortByNet(s), v) == WithNet(s, v)
    decreases |s|
  {
    if |s| > 0 {
      var init, last := s[..|s| - 1], s[|s| - 1];
      SortByNetLast(s);
      SortStable(init, v);
      InsertStable(last, SortByNet(init), v);
      SortStep(s, SortByNet(init), SortByNet(s), v);
    }
  }

  lemma SortByNetLast(s: seq<Opportunity>)
    requires |s| > 0
    ensures SortByNet(s) == Insert(s[|s| - 1], SortByNet(s[..|s| - 1]))
  {
  }

  lemma SortStep(s: seq<Opportunity>, sorted: seq<Opportunity>, inserted: seq<Opportunity>, v: int)
    requires |s| > 0
    requires WithNet(sorted, v) == WithNet(s[..|s| - 1], v)
    requires WithNet(inserted, v) == WithNet(sorted, v) + (if s[|s| - 1].netProfit == v then [s[|s| - 1]] else [])
    ensures WithNet(inserted, v) == WithNet(s, v)
  {
    assert s == s[..|s| - 1] + [s[|s| - 1]];
    WithNetAppend(s[..|s| - 1], [s[|s| - 1]], v);
    WithNetSingle(s[|s| - 1], v);
  }

  lemma WithNetSingle(o: Opportunity, v: int)
    ensures WithNet([o], v) == if o.netProfit == v then [o] else []
  {
    assert WithNet([o], v) == (if o.netProfit == v then [o] else []) + WithNet([], v);
  }

  /** `compare`: nothing when either side is empty; otherwise every profitable match,
      most profitable first. */
  function Compare(c: Settings, amazons: seq<Listing>, sources: seq<Listing>, now: int): (r: seq<Opportunity>)
    ensures |amazons| == 0 || |sources| == 0 ==> r == []
    ensures SortedByNet(r)
    ensures |r| <= |sources|
    ensures forall o :: o in r ==> Profitable(c, o) && o.source in sources && o.amazon in amazons
    ensures forall o :: o in r ==> o.grossProfit == o.amazon.price - o.source.price > 0
    ensures forall o :: o in r ==> OpportunityOf(c, amazons, o.source, now) == Some(o)
    ensures |amazons| > 0 && |sources| > 0 ==> multiset(r) == multiset(Candidates(c, amazons, sources, now))
  {
    if |amazons| == 0 || |sources| == 0 then []
    else
      SortByNet(Candidates(c, amazons, sources, now))
  }

  /** Opportunities of equal net profit are reported in the order of their source
      listings. */
  lemma CompareStable(c: Settings, amazons: seq<Listing>, sources: seq<Listing>, now: int, v: int)
    ensures |amazons| > 0 && |sources| > 0 ==>
      WithNet(Compare(c, amazons, sources, now), v) == WithNet(Candidates(c, amazons, sources, now), v)
  {
    if |amazons| > 0 && |sources| > 0 {
      SortStable(Candidates(c, amazons, sources, now), v);
    }
  }

  /** Each source listing is reported at most once: an opportunity occurs in the
      result no more often than its source listing occurs among the sources. */
  lemma AtMostOnePerSource(c: Settings, amazons: seq<Listing>, sources: seq<Listing>, now: int, o: Opportunity)
    ensures multiset(Compare(c, amazons, sources, now))[o] <= multiset(sources)[o.source]
  {
    if |amazons| > 0 && |sources| > 0 {
      FoundPerSource(c, amazons, sources, now, o);
    }
  }

  lemma FoundPerSource(c: Settings, amazons: seq<Listing>, sources: seq<Listing>, now: int, o: Opportunity)
    ensures multiset(Found(Yields(c, amazons, sources, now)))[o] <= multiset(sources)[o.source]
  {
    FoundCount(Yields(c, amazons, sources, now), sources, o);
  }

  /** When entry `i` can only come from `srcs[i]`, each source gives at most one entry. */
  lemma {:induction false} FoundCount(opps: seq<Option<Opportunity>>, srcs: seq<Listing>, o: Opportunity)
    requires |opps| == |srcs|
    requires forall i :: 0 <= i < |opps| && opps[i].Some? ==> opps[i].value.source == srcs[i]
    ensures multiset(Found(opps))[o] <= multiset(srcs)[o.source]
    decreases |opps|
  {
    if |opps| > 0 {
      FoundCount(opps[1..], srcs[1..], o);
      assert srcs == [srcs[0]] + srcs[1..];
      assert multiset(srcs) == multiset{srcs[0]} + multiset(srcs[1..]);
    }
  }

  /** Every source whose match clears both thresholds is reported, with that match. */
  lemma CompareComplete(c: Settings, amazons: seq<Listing>, sources: seq<Listing>, now: int, i: nat)
    requires i < |sources| && OpportunityOf(c, amazons, sources[i], now).Some?
    ensures OpportunityOf(c, amazons, sources[i], now).value in Compare(c, amazons, sources, now)
  {
    FoundComplete(Yields(c, amazons, sources, now), i);
    var cands := Candidates(c, amazons, sources, now);
    assert |amazons| > 0;
    assert OpportunityOf(c, amazons, sources[i], now).value in multiset(SortByNet(cands));
  }
}
