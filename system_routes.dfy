/**
 * api/system_routes.go: the selection of info pushes for GET /infoPush. The
 * configured pushes and the two query parameters are inputs; an absent
 * parameter is the empty string.
 */
module SystemRoutes {
  import opened GoStrings

  /** A configured info push (config.ApiInfoPush): only its ID and tags are read. */
  datatype ApiInfoPush = ApiInfoPush(id: int, tags: seq<string>)

  /** Some query tag equals some tag of the push. */
  predicate MatchesAny(queryTags: seq<string>, push: ApiInfoPush)
  {
    exists i, j :: 0 <= i < |queryTags| && 0 <= j < |push.tags| && queryTags[i] == push.tags[j]
  }

  /** What one push adds: itself once per query list it matches. */
  function Contribution(push: ApiInfoPush, required: seq<string>, included: seq<string>): seq<ApiInfoPush>
  {
    (if MatchesAny(required, push) then [push] else []) + (if MatchesAny(included, push) then [push] else [])
  }

  /** The pushes selected from a configured list, in list order. */
  function InfoPushSelection(pushes: seq<ApiInfoPush>, required: seq<string>, included: seq<string>): seq<ApiInfoPush>
  {
    if pushes == [] then []
    else InfoPushSelection(pushes[..|pushes| - 1], required, included) + Contribution(pushes[|pushes| - 1], required, included)
  }

  /**
   * getInfoPush. The first inner loop compares the push with those already chosen,
   * but its break leaves only that loop, so it removes nothing. Each match loop
   * leaves both of its loops at the first match.
   */
  method GetInfoPush(pushes: seq<ApiInfoPush>, requireQuery: string, includeQuery: string) returns (toPush: seq<ApiInfoPush>)
    ensures toPush == InfoPushSelection(pushes, Split(requireQuery, ','), Split(includeQuery, ','))
  {
    toPush := [];
    var requiredTags := Split(requireQuery, ',');
    var includedTags := Split(includeQuery, ',');
    for k := 0 to |pushes|
      invariant toPush == InfoPushSelection(pushes[..k], requiredTags, includedTags)
    {
      var push := pushes[k];
      for m := 0 to |toPush| {
        if push.id == toPush[m].id {
          break;
        }
      }

      ghost var before := toPush;
      label nextPush:
      for a := 0 to |requiredTags|
        invariant toPush == before
        invariant forall i, j :: 0 <= i < a && 0 <= j < |push.tags| ==> requiredTags[i] != push.tags[j]
      {
        for b := 0 to |push.tags|
          invariant toPush == before
          invariant forall j :: 0 <= j < b ==> requiredTags[a] != push.tags[j]
        {
          if requiredTags[a] == push.tags[b] {
            toPush := toPush + [push];
            break nextPush;
          }
        }
      }
      assert toPush == before + (if MatchesAny(requiredTags, push) then [push] else []);

      ghost var middle := toPush;
      label nextPush2:
      for a := 0 to |includedTags|
        invariant toPush == middle
        invariant forall i, j :: 0 <= i < a && 0 <= j < |push.tags| ==> includedTags[i] != push.tags[j]
      {
        for b := 0 to |push.tags|
          invariant toPush == middle
          invariant forall j :: 0 <= j < b ==> includedTags[a] != push.tags[j]
        {
          if includedTags[a] == push.tags[b] {
            toPush := toPush + [push];
            break nextPush2;
          }
        }
      }
      assert toPush == middle + (if MatchesAny(includedTags, push) then [push] else []);
      assert pushes[..k + 1][..k] == pushes[..k];
    }
    assert pushes[..|pushes|] == pushes;
  }

  /** Selecting from two lists one after the other is selecting from their concatenation. */
  lemma {:induction false} SelectionAppend(a: seq<ApiInfoPush>, b: seq<ApiInfoPush>, required: seq<string>, included: seq<string>)
    ensures InfoPushSelection(a + b, required, included)
         == InfoPushSelection(a, required, included) + InfoPushSelection(b, required, included)
    decreases |b|
  {
    if b == [] {
      assert a + b == a;
    } else {
      var b' := b[..|b| - 1];
      var last := b[|b| - 1];
      assert (a + b)[..|a + b| - 1] == a + b';
      assert (a + b)[|a + b| - 1] == last;
      SelectionAppend(a, b', required, included);
    }
  }

  /**
   * A push is in the selection exactly when it is configured and matches one of
   * the query lists; a push matching neither is absent.
   */
  lemma {:induction false} SelectionMembers(pushes: seq<ApiInfoPush>, required: seq<string>, included: seq<string>, p: ApiInfoPush)
    ensures p in InfoPushSelection(pushes, required, included)
        <==> p in pushes && (MatchesAny(required, p) || MatchesAny(included, p))
    decreases |pushes|
  {
    if pushes != [] {
      var init := pushes[..|pushes| - 1];
      var last := pushes[|pushes| - 1];
      SelectionMembers(init, required, included, p);
      assert pushes == init + [last];
      assert p in pushes <==> p in init || p == last;
    }
  }

  /** Each configured push is selected at most twice. */
  lemma {:induction false} SelectionLength(pushes: seq<ApiInfoPush>, required: seq<string>, included: seq<string>)
    ensures |InfoPushSelection(pushes, required, included)| <= 2 * |pushes|
    decreases |pushes|
  {
    if pushes != [] {
      SelectionLength(pushes[..|pushes| - 1], required, included);
    }
  }

  /** The position in the configured list that each selected push comes from. */
  function SelectionSources(pushes: seq<ApiInfoPush>, required: seq<string>, included: seq<string>): seq<nat>
  {
    if pushes == [] then []
    else
      var k := |pushes| - 1;
      SelectionSources(pushes[..k], required, included)
        + seq(|Contribution(pushes[k], required, included)|, _ => k)
  }

  /**
   * The selection keeps configured order: the j-th selected push is the push at
   * position SelectionSources[j], and those positions never decrease.
   */
  lemma {:induction false} SelectionInOrder(pushes: seq<ApiInfoPush>, required: seq<string>, included: seq<string>)
    ensures var sel, src := InfoPushSelection(pushes, required, included), SelectionSources(pushes, required, included);
      && |src| == |sel|
      && (forall j :: 0 <= j < |src| ==> src[j] < |pushes| && sel[j] == pushes[src[j]])
      && (forall j1, j2 :: 0 <= j1 <= j2 < |src| ==> src[j1] <= src[j2])
    decreases |pushes|
  {
    if pushes != [] {
      var k := |pushes| - 1;
      var init := pushes[..k];
      SelectionInOrder(init, required, included);
      var c := Contribution(pushes[k], required, included);
      var sel0, src0 := InfoPushSelection(init, required, included), SelectionSources(init, required, included);
      var sel, src := InfoPushSelection(pushes, required, included), SelectionSources(pushes, required, included);
      assert sel == sel0 + c;
      assert src == src0 + seq(|c|, _ => k);
      forall j | 0 <= j < |src| ensures src[j] < |pushes| && sel[j] == pushes[src[j]] {
        if j < |src0| {
          assert src[j] == src0[j] && sel[j] == sel0[j] && pushes[src0[j]] == init[src0[j]];
        } else {
          assert src[j] == k && sel[j] == c[j - |src0|] && c[j - |src0|] == pushes[k];
        }
      }
    }
  }

  /**
   * A push matching both lists appears twice in a row, between what the pushes
   * before it and after it contribute.
   */
  lemma PushMatchingBothAppearsTwice(pushes: seq<ApiInfoPush>, required: seq<string>, included: seq<string>, k: nat)
    requires k < |pushes|
    requires MatchesAny(required, pushes[k]) && MatchesAny(included, pushes[k])
    ensures InfoPushSelection(pushes, required, included)
         == InfoPushSelection(pushes[..k], required, included) + [pushes[k], pushes[k]]
            + InfoPushSelection(pushes[k + 1..], required, included)
  {
    assert pushes == pushes[..k] + [pushes[k]] + pushes[k + 1..];
    SelectionAppend(pushes[..k] + [pushes[k]], pushes[k + 1..], required, included);
    SelectionAppend(pushes[..k], [pushes[k]], required, included);
    assert InfoPushSelection([pushes[k]], required, included) == [] + Contribution(pushes[k], required, included);
  }

  /** An absent query parameter splits to one empty tag, which matches an empty push tag. */
  lemma AbsentQueryMatchesEmptyTag(p: ApiInfoPush)
    ensures MatchesAny(Split("", ','), p) <==> "" in p.tags
  {
    assert Split("", ',') == [""];
    if "" in p.tags {
      var j :| 0 <= j < |p.tags| && p.tags[j] == "";
      assert Split("", ',')[0] == p.tags[j];
    }
  }
}
