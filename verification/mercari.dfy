/** The Mercari scraper's pure parts: the condition-label table, reading a
    condition label, and turning an item link into an absolute URL. */
module Mercari {
  import opened Wrappers
  import Text
  import Assoc

  const BaseUrl := "https://jp.mercari.com"

  /** Mercari's condition labels and the normalised condition each stands for, in
      declaration order: new, like new, no visible marks, slight marks, marks, poor. */
  const ConditionMap: Assoc.Record<string> := [
    ("新品、未使用", "new"),
    ("未使用に近い", "like_new"),
    ("目立った傷や汚れなし", "good"),
    ("やや傷や汚れあり", "acceptable"),
    ("傷や汚れあり", "acceptable"),
    ("全体的に状態が悪い", "acceptable")
  ]

  /** The conditions a listing can carry. */
  predicate IsCondition(c: string) {
    c == "new" || c == "like_new" || c == "good" || c == "acceptable" || c == "unknown"
  }

  /** Position of the first entry whose label occurs in `text`. */
  function FirstLabel(entries: Assoc.Record<string>, text: string): (r: Option<nat>)
    ensures r.Some? ==> r.value < |entries| && Text.Contains(text, entries[r.value].0)
    ensures r.Some? ==> forall j :: 0 <= j < r.value ==> !Text.Contains(text, entries[j].0)
    ensures r.None? ==> forall i :: 0 <= i < |entries| ==> !Text.Contains(text, entries[i].0)
  {
    if |entries| == 0 then None
    else if Text.Contains(text, entries[0].0) then Some(0)
    else
      match FirstLabel(entries[1..], text)
      case None => None
      case Some(i) => Some(i + 1)
  }

  /** `_parse_condition`: the condition of the first label, in table order, found in
      the text; "unknown" when none is. */
  function ParseCondition(text: string): (r: string)
    ensures IsCondition(r)
    ensures r == "unknown" <==> forall i :: 0 <= i < |ConditionMap| ==> !Text.Contains(text, ConditionMap[i].0)
    ensures forall i ::
      (0 <= i < |ConditionMap| && Text.Contains(text, ConditionMap[i].0)
       && forall j :: 0 <= j < i ==> !Text.Contains(text, ConditionMap[j].0))
      ==> r == ConditionMap[i].1
  {
    match FirstLabel(ConditionMap, text)
    case None => "unknown"
    case Some(i) =>
      assert ConditionMap[i].1 != "unknown" && IsCondition(ConditionMap[i].1);
      ConditionMap[i].1
  }

  /** A label that holds a character the text lacks does not occur in it. */
  lemma Absent(text: string, key: string, c: char)
    requires c in key && c !in text
    ensures !Text.Contains(text, key)
  {
  }

  lemma Present(text: string)
    ensures Text.Contains(text, text)
  {
    assert Text.OccursAt(text, text, 0);
  }

  /** A label that no earlier label occurs in reads back as its own condition. */
  lemma ReadBack(i: nat)
    requires i < |ConditionMap|
    requires forall j :: 0 <= j < i ==> !Text.Contains(ConditionMap[i].0, ConditionMap[j].0)
    ensures ParseCondition(ConditionMap[i].0) == ConditionMap[i].1
  {
    Present(ConditionMap[i].0);
  }

  /** Each label, read on its own, gives its own condition: no earlier label of the
      table occurs inside a later one. */
  lemma LabelsReadBack()
    ensures forall i :: 0 <= i < |ConditionMap| ==> ParseCondition(ConditionMap[i].0) == ConditionMap[i].1
  {
    forall i | 0 <= i < |ConditionMap| ensures ParseCondition(ConditionMap[i].0) == ConditionMap[i].1 {
      if i == 0 { ReadBack(0); }
      else if i == 1 { ReadBack1(); }
      else if i == 2 { ReadBack2(); }
      else if i == 3 { ReadBack3(); }
      else if i == 4 { ReadBack4(); }
      else { ReadBack5(); }
    }
  }

  lemma ReadBack1()
    ensures ParseCondition(ConditionMap[1].0) == ConditionMap[1].1
  {
    var m := ConditionMap;
    Absent(m[1].0, m[0].0, '新');
    ReadBack(1);
  }

  lemma ReadBack2()
    ensures ParseCondition(ConditionMap[2].0) == ConditionMap[2].1
  {
    var m := ConditionMap;
    Absent(m[2].0, m[0].0, '新');
    Absent(m[2].0, m[1].0, '未');
    ReadBack(2);
  }

  lemma ReadBack3()
    ensures ParseCondition(ConditionMap[3].0) == ConditionMap[3].1
  {
    var m := ConditionMap;
    Absent(m[3].0, m[0].0, '新');
    Absent(m[3].0, m[1].0, '未');
    Absent(m[3].0, m[2].0, '目');
    ReadBack(3);
  }

  lemma ReadBack4()
    ensures ParseCondition(ConditionMap[4].0) == ConditionMap[4].1
  {
    var m := ConditionMap;
    Absent(m[4].0, m[0].0, '新');
    Absent(m[4].0, m[1].0, '未');
    Absent(m[4].0, m[2].0, '目');
    Longer(m[4].0, m[3].0);
    ReadBack(4);
  }

  lemma ReadBack5()
    ensures ParseCondition(ConditionMap[5].0) == ConditionMap[5].1
  {
    var m := ConditionMap;
    Absent(m[5].0, m[0].0, '新');
    Absent(m[5].0, m[1].0, '未');
    Absent(m[5].0, m[2].0, '目');
    Absent(m[5].0, m[3].0, 'や');
    Absent(m[5].0, m[4].0, 'や');
    ReadBack(5);
  }

  lemma Longer(text: string, key: string)
    requires |key| > |text|
    ensures !Text.Contains(text, key)
  {
  }

  /** The link rule of `_parse_item`: a non-empty relative link is made absolute on
      the site; an absolute link, or none at all, is kept as it is. */
  function ItemUrl(href: string): (url: string)
    ensures Text.EndsWith(url, href)
    ensures href == "" ==> url == ""
    ensures Text.StartsWith(href, "http") ==> url == href
    ensures href != "" && !Text.StartsWith(href, "http") ==> url == BaseUrl + href
  {
    if href != "" && !Text.StartsWith(href, "http") then BaseUrl + href else href
  }

  /** Making a link absolute twice changes nothing more. */
  lemma ItemUrlIdempotent(href: string)
    ensures ItemUrl(ItemUrl(href)) == ItemUrl(href)
  {
    var u := ItemUrl(href);
    if u != href {
      assert u[..4] == BaseUrl[..4] == "http";
    }
  }
}
