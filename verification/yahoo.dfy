/** The Yahoo Auctions scraper's pure parts: reading a condition text and turning an
    item link into an absolute URL. */
module Yahoo {
  import Text
  import Mercari

  const BaseUrl := "https://auctions.yahoo.co.jp"

  /** `_parse_yahoo_condition` as written: the tests run in source order, and the
      test for 未使用 (unused) comes before the one for 未使用に近い (nearly unused). */
  function ParseConditionAsWritten(text: string): (r: string)
    ensures Mercari.IsCondition(r)
    ensures (Text.Contains(text, "新品") || Text.Contains(text, "未使用")) <==> r == "new"
    ensures r == "like_new" <==>
      !Text.Contains(text, "新品") && !Text.Contains(text, "未使用") && Text.Contains(text, "未使用に近い")
    ensures r == "good" <==>
      !Text.Contains(text, "新品") && !Text.Contains(text, "未使用") && !Text.Contains(text, "未使用に近い")
      && Text.Contains(text, "目立った傷や汚れなし")
    ensures r == "acceptable" <==>
      !Text.Contains(text, "新品") && !Text.Contains(text, "未使用") && !Text.Contains(text, "未使用に近い")
      && !Text.Contains(text, "目立った傷や汚れなし") && (Text.Contains(text, "中古") || Text.Contains(text, "傷"))
    ensures r == "unknown" <==>
      !Text.Contains(text, "新品") && !Text.Contains(text, "未使用") && !Text.Contains(text, "未使用に近い")
      && !Text.Contains(text, "目立った傷や汚れなし") && !Text.Contains(text, "中古") && !Text.Contains(text, "傷")
  {
    if Text.Contains(text, "新品") || Text.Contains(text, "未使用") then "new"
    else if Text.Contains(text, "未使用に近い") then "like_new"
    else if Text.Contains(text, "目立った傷や汚れなし") then "good"
    else if Text.Contains(text, "中古") || Text.Contains(text, "傷") then "acceptable"
    else "unknown"
  }

  /** 未使用 occurs at the start of 未使用に近い. */
  lemma NearlyUnusedContainsUnused()
    ensures Text.Contains("未使用に近い", "未使用")
  {
    assert Text.OccursAt("未使用に近い", "未使用", 0);
  }

  /** The like-new branch is dead: any text holding 未使用に近い also holds 未使用,
      which the first test already maps to "new". */
  lemma LikeNewUnreachable(text: string)
    ensures ParseConditionAsWritten(text) != "like_new"
  {
    if Text.Contains(text, "未使用に近い") {
      NearlyUnusedContainsUnused();
      Text.ContainsTransitive(text, "未使用に近い", "未使用");
    }
  }

  /** The witness: the nearly-unused label itself is read as new. */
  lemma NearlyUnusedReadAsNew()
    ensures ParseConditionAsWritten("未使用に近い") == "new"
  {
    NearlyUnusedContainsUnused();
  }

  /** The evidently intended reading: the longer label is tested before the shorter
      one it contains, and every other text reads as before. */
  function ParseCondition(text: string): (r: string)
    ensures Mercari.IsCondition(r)
    ensures Text.Contains(text, "未使用に近い") <==> r == "like_new"
  {
    if Text.Contains(text, "未使用に近い") then "like_new"
    else ParseConditionAsWritten(text)
  }

  /** The corrected reading reaches every condition, like-new included, and differs
      from the written one only on texts holding 未使用に近い. */
  lemma CorrectedReading(text: string)
    ensures ParseCondition("未使用に近い") == "like_new"
    ensures !Text.Contains(text, "未使用に近い") ==> ParseCondition(text) == ParseConditionAsWritten(text)
    ensures Text.Contains(text, "未使用に近い") ==> ParseConditionAsWritten(text) == "new"
  {
    assert Text.OccursAt("未使用に近い", "未使用に近い", 0);
    LikeNewUnreachable(text);
    if Text.Contains(text, "未使用に近い") {
      NearlyUnusedContainsUnused();
      Text.ContainsTransitive(text, "未使用に近い", "未使用");
    }
  }

  /** The link rule of `_parse_auction_item`: an absolute link is kept, anything
      else, an empty link included, is made absolute on the site. */
  function ItemUrl(href: string): (url: string)
    ensures Text.EndsWith(url, href)
    ensures Text.StartsWith(url, "http")
    ensures Text.StartsWith(href, "http") ==> url == href
    ensures !Text.StartsWith(href, "http") ==> url == BaseUrl + href
  {
    if Text.StartsWith(href, "http") then href
    else
      assert (BaseUrl + href)[..4] == BaseUrl[..4];
      BaseUrl + href
  }

  /** Making a link absolute twice changes nothing more. */
  lemma ItemUrlIdempotent(href: string)
    ensures ItemUrl(ItemUrl(href)) == ItemUrl(href)
  {
  }

  /** An empty link becomes the site's front page, where Mercari keeps it empty. */
  lemma EmptyLinkDiffers()
    ensures ItemUrl("") == BaseUrl && Mercari.ItemUrl("") == ""
  {
  }
}
