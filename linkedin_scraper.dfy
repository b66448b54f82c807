/**
 * The record extractor of the LinkedIn people-search scraper: the matched
 * result items are cut to the configured count, each is turned into a
 * record on its own, and the records of the items that did not fail are
 * collected in document order.
 */
module LinkedInScraper {
  import opened Wrappers
  import opened PyStr
  import opened Profile

  /**
   * Where Python's slice `items[:stop]` ends on a list of length `len`:
   * a non-negative stop keeps at most `stop` items, a negative one drops
   * the last `-stop` items.
   */
  function SliceStop(len: nat, stop: int): (end: nat)
    ensures end <= len
    ensures 0 <= stop ==> end <= stop && (end < stop ==> end == len)
    ensures stop < 0 ==> end == len + stop || (end == 0 && len + stop < 0)
  {
    if stop >= 0 then (if stop < len then stop else len)
    else if len + stop >= 0 then len + stop else 0
  }

  /** The list `profile_data` holds after the loop has gone through `profiles`. */
  function ExtractAll(profiles: seq<Item>): (data: seq<ProfileRecord>)
    ensures |data| <= |profiles|
  {
    if profiles == [] then []
    else
      var done := ExtractAll(profiles[..|profiles| - 1]);
      match ProfileOf(profiles[|profiles| - 1])
      case Success(r) => done + [r]
      case Failure(_) => done
  }

  /**
   * `extract_profile_data`: the first `numberOfResults` matched items (Python
   * slice semantics) are examined in order; an item whose `try` block fails
   * is skipped, every other item appends its record.
   */
  method ExtractProfileData(matched: seq<Item>, numberOfResults: int) returns (profileData: seq<ProfileRecord>)
    ensures profileData == ExtractAll(matched[..SliceStop(|matched|, numberOfResults)])
    ensures |profileData| <= |matched|
    ensures 0 <= numberOfResults ==> |profileData| <= numberOfResults
  {
    var profiles := matched[..SliceStop(|matched|, numberOfResults)];
    profileData := [];
    for i := 0 to |profiles|
      invariant profileData == ExtractAll(profiles[..i])
    {
      var r := ExtractProfile(profiles[i]);
      assert profiles[..i + 1][..i] == profiles[..i];
      if r.Success? {
        profileData := profileData + [r.value];
      }
      // a failed item is only logged
    }
    assert profiles[..|profiles|] == profiles;
  }

  /** The position in `profiles` of the item each record came from. */
  ghost function SourceIndices(profiles: seq<Item>): (idx: seq<nat>)
    ensures forall k :: 0 <= k < |idx| ==> idx[k] < |profiles| && ProfileOf(profiles[idx[k]]).Success?
    ensures forall k, l :: 0 <= k < l < |idx| ==> idx[k] < idx[l]
    ensures forall j :: 0 <= j < |profiles| && ProfileOf(profiles[j]).Success? ==> j in idx
  {
    if profiles == [] then []
    else
      var n := |profiles| - 1;
      var done := SourceIndices(profiles[..n]);
      assert forall j :: 0 <= j < n ==> profiles[..n][j] == profiles[j];
      if ProfileOf(profiles[n]).Success? then done + [n] else done
  }

  /**
   * The output is the records of exactly the items that succeed, in
   * document order: record k comes from item `SourceIndices(profiles)[k]`,
   * those positions increase, and every succeeding item is among them.
   */
  lemma {:induction false} ExtractAllInDocumentOrder(profiles: seq<Item>)
    ensures |ExtractAll(profiles)| == |SourceIndices(profiles)|
    ensures forall k :: 0 <= k < |ExtractAll(profiles)| ==>
      Success(ExtractAll(profiles)[k]) == ProfileOf(profiles[SourceIndices(profiles)[k]])
    decreases |profiles|
  {
    if profiles != [] {
      var n := |profiles| - 1;
      var init := profiles[..n];
      ExtractAllInDocumentOrder(init);
      assert forall j :: 0 <= j < n ==> init[j] == profiles[j];
      if ProfileOf(profiles[n]).Success? {
        assert ExtractAll(profiles) == ExtractAll(init) + [ProfileOf(profiles[n]).value];
        assert SourceIndices(profiles) == SourceIndices(init) + [n];
      } else {
        assert ExtractAll(profiles) == ExtractAll(init);
        assert SourceIndices(profiles) == SourceIndices(init);
      }
    }
  }

  /** The loop's result over two stretches of items is the results over each, one after the other. */
  lemma {:induction false} ExtractAllAppend(xs: seq<Item>, ys: seq<Item>)
    ensures ExtractAll(xs + ys) == ExtractAll(xs) + ExtractAll(ys)
    decreases |ys|
  {
    if ys == [] {
      assert xs + ys == xs;
    } else {
      var m := |ys| - 1;
      assert (xs + ys)[..|xs + ys| - 1] == xs + ys[..m];
      assert (xs + ys)[|xs + ys| - 1] == ys[m];
      ExtractAllAppend(xs, ys[..m]);
    }
  }

  /** One item on its own. */
  lemma ExtractOne(item: Item)
    ensures ExtractAll([item]) == if ProfileOf(item).Success? then [ProfileOf(item).value] else []
  {
  }

  /**
   * Failure isolation: a failing item removes its own record and nothing
   * else, and a succeeding item adds exactly its own record, wherever it
   * stands among its siblings.
   */
  lemma ItemAffectsOnlyItsOwnRecord(before: seq<Item>, item: Item, after: seq<Item>)
    ensures ProfileOf(item).Failure? ==>
      ExtractAll(before + [item] + after) == ExtractAll(before) + ExtractAll(after)
    ensures ProfileOf(item).Success? ==>
      ExtractAll(before + [item] + after) == ExtractAll(before) + [ProfileOf(item).value] + ExtractAll(after)
  {
    ExtractAllAppend(before + [item], after);
    ExtractAllAppend(before, [item]);
    ExtractOne(item);
  }

  /** Every examined item yields a record exactly when every one is well formed. */
  lemma {:induction false} AllExtractedIff(profiles: seq<Item>)
    ensures |ExtractAll(profiles)| == |profiles| <==> forall k :: 0 <= k < |profiles| ==> WellFormed(profiles[k])
    decreases |profiles|
  {
    if profiles != [] {
      var n := |profiles| - 1;
      var init := profiles[..n];
      AllExtractedIff(init);
      SkippedIff(profiles[n]);
      assert forall j :: 0 <= j < n ==> init[j] == profiles[j];
      if ProfileOf(profiles[n]).Failure? {
        assert ExtractAll(profiles) == ExtractAll(init);
        assert !WellFormed(profiles[n]);
      } else {
        assert |ExtractAll(profiles)| == |ExtractAll(init)| + 1;
      }
    }
  }

  /** When every examined item yields a record, record k is item k's. */
  lemma {:induction false} AllExtractedInOrder(profiles: seq<Item>)
    requires |ExtractAll(profiles)| == |profiles|
    ensures forall k :: 0 <= k < |profiles| ==> Success(ExtractAll(profiles)[k]) == ProfileOf(profiles[k])
    decreases |profiles|
  {
    if profiles != [] {
      var n := |profiles| - 1;
      var init := profiles[..n];
      assert ProfileOf(profiles[n]).Success?;
      assert ExtractAll(profiles) == ExtractAll(init) + [ProfileOf(profiles[n]).value];
      AllExtractedInOrder(init);
      assert forall j :: 0 <= j < n ==> init[j] == profiles[j];
    }
  }

  /**
   * With K well-formed matched items the extractor returns exactly
   * min(K, N) records, those of the first items in document order.
   */
  lemma WellFormedItemsAllExtracted(matched: seq<Item>, numberOfResults: nat)
    requires forall k :: 0 <= k < |matched| ==> WellFormed(matched[k])
    ensures var data := ExtractAll(matched[..SliceStop(|matched|, numberOfResults)]);
      && |data| == (if numberOfResults < |matched| then numberOfResults else |matched|)
      && forall k :: 0 <= k < |data| ==> Success(data[k]) == ProfileOf(matched[k])
  {
    var profiles := matched[..SliceStop(|matched|, numberOfResults)];
    assert forall k :: 0 <= k < |profiles| ==> profiles[k] == matched[k];
    AllExtractedIff(profiles);
    AllExtractedInOrder(profiles);
  }

  /**
   * Truncation comes before filtering: a failing item among the first N
   * leaves fewer than N records, as no later item takes its place.
   */
  lemma FailedItemNotReplaced(matched: seq<Item>, numberOfResults: nat, j: nat)
    requires j < numberOfResults && j < |matched|
    requires !WellFormed(matched[j])
    ensures |ExtractAll(matched[..SliceStop(|matched|, numberOfResults)])| < numberOfResults
  {
    var profiles := matched[..SliceStop(|matched|, numberOfResults)];
    assert profiles[j] == matched[j];
    AllExtractedIff(profiles);
  }

  /** Items after the first N are never examined: appending more matched items changes nothing. */
  lemma LaterItemsNeverExamined(matched: seq<Item>, later: seq<Item>, numberOfResults: nat)
    requires numberOfResults <= |matched|
    ensures ExtractAll((matched + later)[..SliceStop(|matched + later|, numberOfResults)])
         == ExtractAll(matched[..SliceStop(|matched|, numberOfResults)])
  {
    assert (matched + later)[..numberOfResults] == matched[..numberOfResults];
  }
}
