/**
 * Media records and the write-free first phase of `add_medias`: bucketing the
 * objects by group key, electing each group's leader and checking that every
 * group has one, all before anything is written.
 */
module MediaGrouping {
  import opened Outcomes

  datatype MediaSourceType = Image | Video | Audio | Text | Other

  /** The member's value, which is what a media row stores in `source_type`. */
  function SourceTypeValue(t: MediaSourceType): int {
    match t
    case Image => 1
    case Video => 2
    case Audio => 3
    case Text => 4
    case Other => 5
  }

  /** A media object as the loader receives it; `group` is the source of its group's leader. */
  datatype MediaObject = MediaObject(source: string, sourceType: MediaSourceType, thumbnail: Option<string>, group: Option<string>)

  ghost predicate Distinct(keys: seq<string>) {
    forall i, j :: 0 <= i < j < |keys| ==> keys[i] != keys[j]
  }

  /** Some object names `g` as its group. */
  ghost predicate IsGroupKey(objs: seq<MediaObject>, g: string) {
    exists mo :: mo in objs && mo.group == Some(g)
  }

  /** Some object has source `s`. */
  ghost predicate HasSource(objs: seq<MediaObject>, s: string) {
    exists mo :: mo in objs && mo.source == s
  }

  /** `mo` occurs in `objs` and no later object has the same source. */
  ghost predicate IsLastOfSource(objs: seq<MediaObject>, mo: MediaObject) {
    exists i :: 0 <= i < |objs| && objs[i] == mo && forall j :: i < j < |objs| ==> objs[j].source != mo.source
  }

  /** No two objects of the input share a source. */
  ghost predicate DistinctSources(objs: seq<MediaObject>) {
    forall i, j :: 0 <= i < j < |objs| ==> objs[i].source != objs[j].source
  }

  /** The objects whose group is `g`, in input order. */
  function GroupMembers(objs: seq<MediaObject>, g: string): (r: seq<MediaObject>)
    ensures forall mo :: mo in r <==> mo in objs && mo.group == Some(g)
    ensures r == [] <==> !IsGroupKey(objs, g)
  {
    if objs == [] then []
    else
      var init := GroupMembers(objs[..|objs| - 1], g);
      var last := objs[|objs| - 1];
      assert forall mo :: mo in objs <==> mo in objs[..|objs| - 1] || mo == last by {
        assert objs == objs[..|objs| - 1] + [last];
      }
      if last.group == Some(g) then init + [last] else init
  }

  /** A group of objects with distinct sources has distinct sources. */
  lemma {:induction false} GroupMembersDistinct(objs: seq<MediaObject>, g: string)
    requires DistinctSources(objs)
    ensures DistinctSources(GroupMembers(objs, g))
  {
    if objs != [] {
      var init := objs[..|objs| - 1];
      var last := objs[|objs| - 1];
      assert DistinctSources(init) by {
        assert forall i :: 0 <= i < |init| ==> init[i] == objs[i];
      }
      GroupMembersDistinct(init, g);
      if last.group == Some(g) {
        var prev := GroupMembers(init, g);
        var r := prev + [last];
        forall i, j | 0 <= i < j < |r| ensures r[i].source != r[j].source {
          if j == |prev| {
            assert r[i] in init;
            var k :| 0 <= k < |init| && init[k] == r[i];
            assert objs[k] == r[i];
          }
        }
      }
    }
  }

  /**
   * The first loop of `add_medias`: `group_medias`, a dictionary from group key
   * to the objects of that group in input order, with its keys in insertion order.
   */
  method BucketByGroup(objs: seq<MediaObject>) returns (keys: seq<string>, buckets: map<string, seq<MediaObject>>)
    ensures Distinct(keys) && forall g :: g in keys <==> g in buckets
    ensures forall g :: g in buckets <==> IsGroupKey(objs, g)
    ensures forall g :: g in buckets ==> buckets[g] == GroupMembers(objs, g)
  {
    keys, buckets := [], map[];
    var i := 0;
    while i < |objs|
      invariant 0 <= i <= |objs|
      invariant Distinct(keys) && forall g :: g in keys <==> g in buckets
      invariant forall g :: g in buckets <==> IsGroupKey(objs[..i], g)
      invariant forall g :: g in buckets ==> buckets[g] == GroupMembers(objs[..i], g)
    {
      var mo := objs[i];
      assert objs[..i + 1][..i] == objs[..i];
      assert objs[..i + 1] == objs[..i] + [mo];
      if mo.group.Some? && mo.group.value !in buckets {
        keys := keys + [mo.group.value];
        buckets := buckets[mo.group.value := [mo]];
      } else if mo.group.Some? {
        buckets := buckets[mo.group.value := buckets[mo.group.value] + [mo]];
      }
      i := i + 1;
    }
    assert objs[..i] == objs;
  }

  /**
   * The second loop of `add_medias`: `leaders`, a dictionary from group key to
   * the object whose source is that key (the last such object when several
   * are), with its keys in first-insertion order.
   */
  method ElectLeaders(objs: seq<MediaObject>, buckets: map<string, seq<MediaObject>>)
    returns (order: seq<string>, leaders: map<string, MediaObject>)
    ensures Distinct(order) && forall s :: s in order <==> s in leaders
    ensures forall s :: s in leaders <==> s in buckets && HasSource(objs, s)
    ensures forall s :: s in leaders ==> leaders[s].source == s && IsLastOfSource(objs, leaders[s])
  {
    order, leaders := [], map[];
    var i := 0;
    while i < |objs|
      invariant 0 <= i <= |objs|
      invariant Distinct(order) && forall s :: s in order <==> s in leaders
      invariant forall s :: s in leaders <==> s in buckets && HasSource(objs[..i], s)
      invariant forall s :: s in leaders ==> leaders[s].source == s && IsLastOfSource(objs[..i], leaders[s])
    {
      var mo := objs[i];
      assert objs[..i + 1] == objs[..i] + [mo];
      if mo.source in buckets {
        if mo.source !in leaders {
          order := order + [mo.source];
        }
        leaders := leaders[mo.source := mo];
      }
      forall s | s in leaders ensures IsLastOfSource(objs[..i + 1], leaders[s]) {
        if s == mo.source {
          assert objs[..i + 1][i] == mo;
        } else {
          var k :| 0 <= k < i && objs[..i][k] == leaders[s]
                   && forall j :: k < j < i ==> objs[..i][j].source != leaders[s].source;
          assert objs[..i + 1][k] == leaders[s];
        }
      }
      i := i + 1;
    }
    assert objs[..i] == objs;
  }

  /** The validation loop of `add_medias`: the first group key, in insertion order, that has no leader. */
  method FindMissingLeader(keys: seq<string>, leaders: map<string, MediaObject>) returns (missing: Option<string>)
    ensures missing.None? <==> forall g :: g in keys ==> g in leaders
    ensures missing.Some? ==> exists i :: 0 <= i < |keys| && keys[i] == missing.value && keys[i] !in leaders
                                          && forall j :: 0 <= j < i ==> keys[j] in leaders
  {
    var i := 0;
    while i < |keys|
      invariant 0 <= i <= |keys|
      invariant forall j :: 0 <= j < i ==> keys[j] in leaders
    {
      if keys[i] !in leaders {
        return Some(keys[i]);
      }
      i := i + 1;
    }
    return None;
  }
}
