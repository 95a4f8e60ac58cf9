/**
 * The in-memory steps of the SQLite loader's `add_media_taggings`: look up
 * each media source once and gather the values asked for per tagset (step 1),
 * resolve each tagset once (step 2), and expand the answers back into
 * (media id, tag id) pairs (step 3). `Links` is the per-value reference the
 * three steps together are proved against.
 */
module MediaTaggings {
  import opened Outcomes
  import opened Tables
  import opened TagResolver
  import opened MediaTable

  /** One entry of `media_tag_mappings`: a media source and, per tagset name, the values to tag it with. */
  datatype MediaTagMapping = MediaTagMapping(mediaSource: string, tagsets: seq<(string, seq<TagValue>)>)

  /** Some mapping names a media source that has no row. */
  ghost predicate SomeMediaMissing(medias: map<string, MediaRow>, mappings: seq<MediaTagMapping>) {
    exists i :: 0 <= i < |mappings| && mappings[i].mediaSource !in medias
  }

  /** Some mapping lists tagset `name`. */
  ghost predicate Names(mappings: seq<MediaTagMapping>, name: string) {
    exists i, j :: 0 <= i < |mappings| && 0 <= j < |mappings[i].tagsets| && mappings[i].tagsets[j].0 == name
  }

  /** Some mapping lists value `v` under tagset `name`. */
  ghost predicate Requests(mappings: seq<MediaTagMapping>, name: string, v: TagValue) {
    exists i, j :: 0 <= i < |mappings| && 0 <= j < |mappings[i].tagsets|
                   && mappings[i].tagsets[j].0 == name && v in mappings[i].tagsets[j].1
  }

  /**
   * The tagging `p` is one the mappings ask for: some mapping lists a value
   * under a tagset, that value resolves there on its own to a non-zero tag id,
   * and `p` pairs the mapping's media id with that tag id.
   */
  ghost predicate Links(medias: map<string, MediaRow>, tagsets: map<string, TagsetRow>, typed: map<string, seq<TypedRow>>,
                        mappings: seq<MediaTagMapping>, p: (int, int))
  {
    exists i, j, v :: 0 <= i < |mappings| && 0 <= j < |mappings[i].tagsets| && v in mappings[i].tagsets[j].1
                      && mappings[i].mediaSource in medias && p.0 == medias[mappings[i].mediaSource].id
                      && TagIdOf(tagsets, typed, mappings[i].tagsets[j].0, v) == Some(p.1) && p.1 != 0
  }

  /** `tagset_to_values` after the entries `items` of one mapping: each name's set grows by that entry's values. */
  function Merge(acc: map<string, set<TagValue>>, items: seq<(string, seq<TagValue>)>): map<string, set<TagValue>>
  {
    if |items| == 0 then acc
    else
      var m := Merge(acc, items[..|items| - 1]);
      var (name, values) := items[|items| - 1];
      m[name := (if name in m then m[name] else {}) + set v | v in values]
  }

  /** `tagset_to_values` after step 1 has seen `mappings`. */
  function Gather(mappings: seq<MediaTagMapping>): map<string, set<TagValue>>
  {
    if |mappings| == 0 then map[]
    else Merge(Gather(mappings[..|mappings| - 1]), mappings[|mappings| - 1].tagsets)
  }

  /** Merging entries adds exactly their names, and to each name exactly the values listed under it. */
  lemma {:induction false} MergeAdds(acc: map<string, set<TagValue>>, items: seq<(string, seq<TagValue>)>)
    ensures forall name :: name in Merge(acc, items) <==> name in acc || exists j :: 0 <= j < |items| && items[j].0 == name
    ensures forall name, v :: name in Merge(acc, items) ==>
              (v in Merge(acc, items)[name] <==>
                 (name in acc && v in acc[name]) || exists j :: 0 <= j < |items| && items[j].0 == name && v in items[j].1)
  {
    if |items| > 0 {
      var init := items[..|items| - 1];
      MergeAdds(acc, init);
      assert forall j :: 0 <= j < |init| ==> items[j] == init[j];
      var m := Merge(acc, init);
      var last := items[|items| - 1];
      forall name, v | name in Merge(acc, items)
        ensures v in Merge(acc, items)[name] <==>
                  (name in acc && v in acc[name]) || exists j :: 0 <= j < |items| && items[j].0 == name && v in items[j].1
      {
        if name == last.0 && v in last.1 {
          assert items[|items| - 1].0 == name && v in items[|items| - 1].1;
        }
        if (exists j :: 0 <= j < |items| && items[j].0 == name && v in items[j].1) && name != last.0 {
          var j :| 0 <= j < |items| && items[j].0 == name && v in items[j].1;
          assert init[j] == items[j];
        }
      }
    }
  }

  /** After step 1, `tagset_to_values` holds exactly the tagsets the mappings name, each with exactly the values listed under it. */
  lemma {:induction false} GatherIsRequests(mappings: seq<MediaTagMapping>)
    ensures forall name :: name in Gather(mappings) <==> Names(mappings, name)
    ensures forall name, v :: name in Gather(mappings) ==> (v in Gather(mappings)[name] <==> Requests(mappings, name, v))
  {
    if |mappings| > 0 {
      var init := mappings[..|mappings| - 1];
      var last := mappings[|mappings| - 1];
      GatherIsRequests(init);
      MergeAdds(Gather(init), last.tagsets);
      assert forall i :: 0 <= i < |init| ==> mappings[i] == init[i];
      forall name ensures name in Gather(mappings) <==> Names(mappings, name) {
        if exists j :: 0 <= j < |last.tagsets| && last.tagsets[j].0 == name {
          var j :| 0 <= j < |last.tagsets| && last.tagsets[j].0 == name;
          assert mappings[|mappings| - 1].tagsets[j].0 == name;
        }
        if Names(mappings, name) {
          var i, j :| 0 <= i < |mappings| && 0 <= j < |mappings[i].tagsets| && mappings[i].tagsets[j].0 == name;
          if i < |init| {
            assert Names(init, name);
          }
        }
      }
      forall name, v | name in Gather(mappings)
        ensures v in Gather(mappings)[name] <==> Requests(mappings, name, v)
      {
        if exists j :: 0 <= j < |last.tagsets| && last.tagsets[j].0 == name && v in last.tagsets[j].1 {
          var j :| 0 <= j < |last.tagsets| && last.tagsets[j].0 == name && v in last.tagsets[j].1;
          assert mappings[|mappings| - 1].tagsets[j].0 == name;
        }
        if Requests(mappings, name, v) {
          var i, j :| 0 <= i < |mappings| && 0 <= j < |mappings[i].tagsets|
                      && mappings[i].tagsets[j].0 == name && v in mappings[i].tagsets[j].1;
          if i < |init| {
            assert Requests(init, name, v);
            assert Names(init, name);
          }
        }
      }
    }
  }

  /**
   * Step 1: fetch each media source's id the first time it is seen, and add
   * each entry's values to its tagset's set. A source without a row makes
   * `fetchone()[0]` raise; `missing` names it.
   */
  method LookUpAndGather(medias: map<string, MediaRow>, mappings: seq<MediaTagMapping>)
    returns (mediaIds: map<string, int>, requested: map<string, set<TagValue>>, missing: Option<string>)
    ensures missing.None? <==> !SomeMediaMissing(medias, mappings)
    ensures missing.Some? ==> missing.value !in medias && exists i :: 0 <= i < |mappings| && mappings[i].mediaSource == missing.value
    ensures missing.None? ==> requested == Gather(mappings)
    ensures missing.None? ==> forall i :: 0 <= i < |mappings| ==> mappings[i].mediaSource in mediaIds
    ensures forall s :: s in mediaIds ==> s in medias && mediaIds[s] == medias[s].id
  {
    mediaIds, requested, missing := map[], map[], None;
    var k := 0;
    while k < |mappings|
      invariant 0 <= k <= |mappings|
      invariant forall i :: 0 <= i < k ==> mappings[i].mediaSource in mediaIds
      invariant forall s :: s in mediaIds ==> s in medias && mediaIds[s] == medias[s].id
      invariant requested == Gather(mappings[..k])
    {
      var source := mappings[k].mediaSource;
      if source !in mediaIds {
        if source !in medias {
          return mediaIds, requested, Some(source);
        }
        mediaIds := mediaIds[source := medias[source].id];
      }
      var items := mappings[k].tagsets;
      var j := 0;
      while j < |items|
        invariant 0 <= j <= |items|
        invariant requested == Merge(Gather(mappings[..k]), items[..j])
      {
        var (name, values) := items[j];
        var sofar := if name in requested then requested[name] else {};
        assert items[..j + 1][..j] == items[..j];
        requested := requested[name := sofar + set v | v in values];
        j := j + 1;
      }
      assert items[..j] == items;
      assert mappings[..k + 1][..k] == mappings[..k];
      k := k + 1;
    }
    assert mappings[..k] == mappings;
  }

  /** `list(tag_values)`: the values of a set, each once, in some order. */
  method ListOf(values: set<TagValue>) returns (s: seq<TagValue>)
    ensures forall v :: v in s <==> v in values
  {
    s := [];
    var rest := values;
    while rest != {}
      invariant rest <= values
      invariant forall v :: v in values <==> v in s || v in rest
      decreases |rest|
    {
      var v :| v in rest;
      s := s + [v];
      rest := rest - {v};
    }
  }

  /**
   * Step 2: the resolver once per requested tagset, its answers merged into
   * one dictionary keyed by (tagset name, value). An answer of None makes
   * `update` raise; `failed` names that tagset. Otherwise the dictionary
   * agrees with resolving every requested value on its own.
   */
  method ResolveAll(tagsets: map<string, TagsetRow>, typed: map<string, seq<TypedRow>>, requested: map<string, set<TagValue>>)
    returns (tagMap: map<(string, TagValue), int>, failed: Option<string>)
    ensures failed.None? <==> forall name :: name in requested ==> !ResolverFails(tagsets, typed, name)
    ensures failed.Some? ==> failed.value in requested && ResolverFails(tagsets, typed, failed.value)
    ensures failed.None? ==> forall key :: key in tagMap <==>
              key.0 in requested && key.1 in requested[key.0] && TagIdOf(tagsets, typed, key.0, key.1).Some?
    ensures failed.None? ==> forall key :: key in tagMap ==> tagMap[key] == TagIdOf(tagsets, typed, key.0, key.1).value
  {
    tagMap, failed := map[], None;
    var done: set<string> := {};
    while done != requested.Keys
      invariant done <= requested.Keys
      invariant forall name :: name in done ==> !ResolverFails(tagsets, typed, name)
      invariant forall key :: key in tagMap <==>
                  key.0 in done && key.1 in requested[key.0] && TagIdOf(tagsets, typed, key.0, key.1).Some?
      invariant forall key :: key in tagMap ==> tagMap[key] == TagIdOf(tagsets, typed, key.0, key.1).value
      decreases |requested.Keys - done|
    {
      var name :| name in requested.Keys - done;
      var values := ListOf(requested[name]);
      var found := ResolveTagIds(tagsets, typed, name, values);
      if found.None? {
        return tagMap, Some(name);
      }
      tagMap := tagMap + found.value;
      done := done + {name};
    }
  }

  /** The pairs one entry yields, value by value: `(media id, tag id)` when the value is in the dictionary with a non-zero id. */
  function ValuePairs(mediaId: int, tagMap: map<(string, TagValue), int>, name: string, values: seq<TagValue>): seq<(int, int)>
  {
    if |values| == 0 then []
    else
      var v := values[|values| - 1];
      ValuePairs(mediaId, tagMap, name, values[..|values| - 1])
        + (if (name, v) in tagMap && tagMap[(name, v)] != 0 then [(mediaId, tagMap[(name, v)])] else [])
  }

  /** The pairs one mapping yields, entry by entry. */
  function ItemPairs(mediaId: int, tagMap: map<(string, TagValue), int>, items: seq<(string, seq<TagValue>)>): seq<(int, int)>
  {
    if |items| == 0 then []
    else
      ItemPairs(mediaId, tagMap, items[..|items| - 1])
        + ValuePairs(mediaId, tagMap, items[|items| - 1].0, items[|items| - 1].1)
  }

  /** The `taggings` list step 3 builds, mapping by mapping. */
  function MappingPairs(mediaIds: map<string, int>, tagMap: map<(string, TagValue), int>, mappings: seq<MediaTagMapping>)
    : seq<(int, int)>
    requires forall i :: 0 <= i < |mappings| ==> mappings[i].mediaSource in mediaIds
  {
    if |mappings| == 0 then []
    else
      var m := mappings[|mappings| - 1];
      MappingPairs(mediaIds, tagMap, mappings[..|mappings| - 1]) + ItemPairs(mediaIds[m.mediaSource], tagMap, m.tagsets)
  }

  /** A pair of one entry comes from one of its values that has a non-zero id, and each such value yields one. */
  lemma {:induction false} ValuePairsHold(mediaId: int, tagMap: map<(string, TagValue), int>, name: string, values: seq<TagValue>)
    ensures forall p :: p in ValuePairs(mediaId, tagMap, name, values) <==>
              exists v :: v in values && (name, v) in tagMap && tagMap[(name, v)] != 0 && p == (mediaId, tagMap[(name, v)])
  {
    if |values| > 0 {
      var init := values[..|values| - 1];
      ValuePairsHold(mediaId, tagMap, name, init);
      assert values == init + [values[|values| - 1]];
    }
  }

  /** A pair of one mapping comes from a value of one of its entries that has a non-zero id, and each such value yields one. */
  lemma {:induction false} ItemPairsHold(mediaId: int, tagMap: map<(string, TagValue), int>, items: seq<(string, seq<TagValue>)>)
    ensures forall p :: p in ItemPairs(mediaId, tagMap, items) <==>
              exists j, v :: 0 <= j < |items| && v in items[j].1 && (items[j].0, v) in tagMap && tagMap[(items[j].0, v)] != 0
                             && p == (mediaId, tagMap[(items[j].0, v)])
  {
    if |items| > 0 {
      var init := items[..|items| - 1];
      var last := items[|items| - 1];
      ItemPairsHold(mediaId, tagMap, init);
      ValuePairsHold(mediaId, tagMap, last.0, last.1);
      assert forall j :: 0 <= j < |init| ==> items[j] == init[j];
      forall p | p in ItemPairs(mediaId, tagMap, items)
        ensures exists j, v :: 0 <= j < |items| && v in items[j].1 && (items[j].0, v) in tagMap && tagMap[(items[j].0, v)] != 0
                               && p == (mediaId, tagMap[(items[j].0, v)])
      {
        if p !in ItemPairs(mediaId, tagMap, init) {
          var v :| v in last.1 && (last.0, v) in tagMap && tagMap[(last.0, v)] != 0 && p == (mediaId, tagMap[(last.0, v)]);
          assert items[|items| - 1] == last;
        }
      }
      forall p | exists j, v :: 0 <= j < |items| && v in items[j].1 && (items[j].0, v) in tagMap && tagMap[(items[j].0, v)] != 0
                                && p == (mediaId, tagMap[(items[j].0, v)])
        ensures p in ItemPairs(mediaId, tagMap, items)
      {
        var j, v :| 0 <= j < |items| && v in items[j].1 && (items[j].0, v) in tagMap && tagMap[(items[j].0, v)] != 0
                    && p == (mediaId, tagMap[(items[j].0, v)]);
        if j == |items| - 1 {
          assert p in ValuePairs(mediaId, tagMap, last.0, last.1);
        } else {
          assert p in ItemPairs(mediaId, tagMap, init);
        }
      }
    }
  }

  /** A pair of the whole list comes from a listed value of some mapping that has a non-zero id, and each such value yields one. */
  lemma {:induction false} MappingPairsHold(mediaIds: map<string, int>, tagMap: map<(string, TagValue), int>,
                                            mappings: seq<MediaTagMapping>)
    requires forall i :: 0 <= i < |mappings| ==> mappings[i].mediaSource in mediaIds
    ensures forall p :: p in MappingPairs(mediaIds, tagMap, mappings) <==>
              exists i, j, v :: 0 <= i < |mappings| && 0 <= j < |mappings[i].tagsets| && v in mappings[i].tagsets[j].1
                                && (mappings[i].tagsets[j].0, v) in tagMap && tagMap[(mappings[i].tagsets[j].0, v)] != 0
                                && p == (mediaIds[mappings[i].mediaSource], tagMap[(mappings[i].tagsets[j].0, v)])
  {
    if |mappings| > 0 {
      var init := mappings[..|mappings| - 1];
      var last := mappings[|mappings| - 1];
      assert forall i :: 0 <= i < |init| ==> mappings[i] == init[i];
      MappingPairsHold(mediaIds, tagMap, init);
      ItemPairsHold(mediaIds[last.mediaSource], tagMap, last.tagsets);
      forall p | p in MappingPairs(mediaIds, tagMap, mappings)
        ensures exists i, j, v :: 0 <= i < |mappings| && 0 <= j < |mappings[i].tagsets| && v in mappings[i].tagsets[j].1
                                  && (mappings[i].tagsets[j].0, v) in tagMap && tagMap[(mappings[i].tagsets[j].0, v)] != 0
                                  && p == (mediaIds[mappings[i].mediaSource], tagMap[(mappings[i].tagsets[j].0, v)])
      {
        if p !in MappingPairs(mediaIds, tagMap, init) {
          var j, v :| 0 <= j < |last.tagsets| && v in last.tagsets[j].1 && (last.tagsets[j].0, v) in tagMap
                      && tagMap[(last.tagsets[j].0, v)] != 0 && p == (mediaIds[last.mediaSource], tagMap[(last.tagsets[j].0, v)]);
          assert mappings[|mappings| - 1] == last;
        }
      }
      forall p | exists i, j, v :: 0 <= i < |mappings| && 0 <= j < |mappings[i].tagsets| && v in mappings[i].tagsets[j].1
                                   && (mappings[i].tagsets[j].0, v) in tagMap && tagMap[(mappings[i].tagsets[j].0, v)] != 0
                                   && p == (mediaIds[mappings[i].mediaSource], tagMap[(mappings[i].tagsets[j].0, v)])
        ensures p in MappingPairs(mediaIds, tagMap, mappings)
      {
        var i, j, v :| 0 <= i < |mappings| && 0 <= j < |mappings[i].tagsets| && v in mappings[i].tagsets[j].1
                       && (mappings[i].tagsets[j].0, v) in tagMap && tagMap[(mappings[i].tagsets[j].0, v)] != 0
                       && p == (mediaIds[mappings[i].mediaSource], tagMap[(mappings[i].tagsets[j].0, v)]);
        if i == |mappings| - 1 {
          assert p in ItemPairs(mediaIds[last.mediaSource], tagMap, last.tagsets);
        } else {
          assert p in MappingPairs(mediaIds, tagMap, init);
        }
      }
    }
  }

  /**
   * Step 3: for each mapping, entry and value in order, append
   * `(media_id, tag_id)` when `tag_mapping.get((tagset_name, value))` is a
   * non-zero id.
   */
  method CollectTaggings(mediaIds: map<string, int>, tagMap: map<(string, TagValue), int>, mappings: seq<MediaTagMapping>)
    returns (pairs: seq<(int, int)>)
    requires forall i :: 0 <= i < |mappings| ==> mappings[i].mediaSource in mediaIds
    ensures pairs == MappingPairs(mediaIds, tagMap, mappings)
  {
    pairs := [];
    var k := 0;
    while k < |mappings|
      invariant 0 <= k <= |mappings|
      invariant pairs == MappingPairs(mediaIds, tagMap, mappings[..k])
    {
      assert mappings[..k + 1][..k] == mappings[..k];
      var mediaId := mediaIds[mappings[k].mediaSource];
      var more := CollectMappingTaggings(mediaId, tagMap, mappings[k].tagsets);
      pairs := pairs + more;
      k := k + 1;
    }
    assert mappings[..k] == mappings;
  }

  /** The entries of one mapping, in order. */
  method CollectMappingTaggings(mediaId: int, tagMap: map<(string, TagValue), int>, items: seq<(string, seq<TagValue>)>)
    returns (pairs: seq<(int, int)>)
    ensures pairs == ItemPairs(mediaId, tagMap, items)
  {
    pairs := [];
    var j := 0;
    while j < |items|
      invariant 0 <= j <= |items|
      invariant pairs == ItemPairs(mediaId, tagMap, items[..j])
    {
      assert items[..j + 1][..j] == items[..j];
      var name := items[j].0;
      var values := items[j].1;
      ghost var before := pairs;
      var l := 0;
      while l < |values|
        invariant 0 <= l <= |values|
        invariant pairs == before + ValuePairs(mediaId, tagMap, name, values[..l])
      {
        assert values[..l + 1][..l] == values[..l];
        var tagId := if (name, values[l]) in tagMap then Some(tagMap[(name, values[l])]) else None;
        if tagId.Some? && tagId.value != 0 {
          pairs := pairs + [(mediaId, tagId.value)];
        }
        l := l + 1;
      }
      assert values[..l] == values;
      j := j + 1;
    }
    assert items[..j] == items;
  }

  /**
   * The three steps together yield exactly the taggings the mappings ask
   * for: resolving each tagset once over the gathered values gives the same
   * pairs as resolving every listed value on its own.
   */
  lemma PairsAreLinks(medias: map<string, MediaRow>, tagsets: map<string, TagsetRow>, typed: map<string, seq<TypedRow>>,
                      mappings: seq<MediaTagMapping>, mediaIds: map<string, int>, tagMap: map<(string, TagValue), int>)
    requires forall i :: 0 <= i < |mappings| ==> mappings[i].mediaSource in mediaIds
    requires forall s :: s in mediaIds ==> s in medias && mediaIds[s] == medias[s].id
    requires forall key :: key in tagMap <==>
               key.0 in Gather(mappings) && key.1 in Gather(mappings)[key.0] && TagIdOf(tagsets, typed, key.0, key.1).Some?
    requires forall key :: key in tagMap ==> tagMap[key] == TagIdOf(tagsets, typed, key.0, key.1).value
    ensures forall p :: p in MappingPairs(mediaIds, tagMap, mappings) <==> Links(medias, tagsets, typed, mappings, p)
  {
    MappingPairsHold(mediaIds, tagMap, mappings);
    GatherIsRequests(mappings);
    forall p | Links(medias, tagsets, typed, mappings, p) ensures p in MappingPairs(mediaIds, tagMap, mappings) {
      var i, j, v :| 0 <= i < |mappings| && 0 <= j < |mappings[i].tagsets| && v in mappings[i].tagsets[j].1
                     && mappings[i].mediaSource in medias && p.0 == medias[mappings[i].mediaSource].id
                     && TagIdOf(tagsets, typed, mappings[i].tagsets[j].0, v) == Some(p.1) && p.1 != 0;
      var name := mappings[i].tagsets[j].0;
      assert Names(mappings, name) && Requests(mappings, name, v);
      assert (name, v) in tagMap;
    }
  }
}
