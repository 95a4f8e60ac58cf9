/**
 * The SQLite loader: one database as a `Store` object whose fields are its
 * tables, and each loader function as a method over it. The queries the
 * loader runs are functions of the table values, defined before the class.
 */
module M3Loader {
  import opened Outcomes
  import opened TagTypes
  import opened Tables
  import opened TagResolver
  import opened TagsetTable
  import opened TagWrites
  import opened MediaGrouping
  import opened MediaTable
  import opened MediaTaggings

  /** Every value of the batch resolves under its tagset. */
  ghost predicate AllResolve(tagsets: map<string, TagsetRow>, typed: map<string, seq<TypedRow>>, batch: Tags) {
    forall v :: v in batch.values ==> TagIdOf(tagsets, typed, batch.tagsetName, v).Some?
  }

  /** `[v for v in values if v not in known]`. */
  function Unresolved(values: seq<TagValue>, known: set<TagValue>): (r: seq<TagValue>)
    ensures forall v :: v in r <==> v in values && v !in known
    ensures |r| <= |values|
  {
    if values == [] then []
    else (if values[0] in known then [] else [values[0]]) + Unresolved(values[1..], known)
  }

  /** Each value not known is kept as often as the input lists it, and a known value is dropped every time. */
  lemma {:induction false} UnresolvedCounts(values: seq<TagValue>, known: set<TagValue>)
    ensures forall v :: multiset(Unresolved(values, known))[v] == if v in known then 0 else multiset(values)[v]
  {
    if values != [] {
      UnresolvedCounts(values[1..], known);
      assert values == [values[0]] + values[1..];
    }
  }

  /**
   * Filtering a concatenation gives the concatenation of the filtered parts:
   * the kept values stay in the order of the input, which is the order in
   * which `zip` pairs them with the new ids.
   */
  lemma {:induction false} UnresolvedOfConcat(a: seq<TagValue>, b: seq<TagValue>, known: set<TagValue>)
    ensures Unresolved(a + b, known) == Unresolved(a, known) + Unresolved(b, known)
  {
    if a != [] {
      var head := if a[0] in known then [] else [a[0]];
      assert (a + b)[0] == a[0] && (a + b)[1..] == a[1..] + b;
      assert Unresolved(a + b, known) == head + Unresolved(a[1..] + b, known);
      UnresolvedOfConcat(a[1..], b, known);
      assert Unresolved(a, known) == head + Unresolved(a[1..], known);
      assert head + (Unresolved(a[1..], known) + Unresolved(b, known)) == (head + Unresolved(a[1..], known)) + Unresolved(b, known);
    } else {
      assert a + b == b;
    }
  }

  /**
   * Lines 126-128 of `add_tags`: the values of the batch that do not resolve
   * yet (all of them when the resolver fails), in batch order.
   */
  function NewValues(tagsets: map<string, TagsetRow>, typed: map<string, seq<TypedRow>>, batch: Tags): (r: seq<TagValue>)
    ensures ResolverFails(tagsets, typed, batch.tagsetName) ==> r == batch.values
    ensures !ResolverFails(tagsets, typed, batch.tagsetName) ==>
              forall v :: v in r <==> v in batch.values && TagIdOf(tagsets, typed, batch.tagsetName, v).None?
  {
    var existing := ResolveTagIds(tagsets, typed, batch.tagsetName, batch.values).GetOr(map[]);
    var known := set key | key in existing.Keys :: key.1;
    if ResolverFails(tagsets, typed, batch.tagsetName) then
      assert known == {};
      UnresolvedKeepsAllWhenNothingKnown(batch.values, known);
      Unresolved(batch.values, known)
    else
      assert forall v :: v in known <==> (batch.tagsetName, v) in existing;
      Unresolved(batch.values, known)
  }

  lemma {:induction false} UnresolvedKeepsAllWhenNothingKnown(values: seq<TagValue>, known: set<TagValue>)
    ensures known == {} ==> Unresolved(values, known) == values
  {
    if values != [] {
      UnresolvedKeepsAllWhenNothingKnown(values[1..], known);
    }
  }

  /**
   * The new values keep every value that does not resolve as often as the
   * batch lists it, drop every value that does, and keep the batch order.
   */
  lemma NewValuesCounts(tagsets: map<string, TagsetRow>, typed: map<string, seq<TypedRow>>, batch: Tags)
    requires !ResolverFails(tagsets, typed, batch.tagsetName)
    ensures forall v :: multiset(NewValues(tagsets, typed, batch))[v] ==
              if TagIdOf(tagsets, typed, batch.tagsetName, v).Some? then 0 else multiset(batch.values)[v]
    ensures NewValues(tagsets, typed, batch) == Unresolved(batch.values, set v | v in batch.values && TagIdOf(tagsets, typed, batch.tagsetName, v).Some?)
  {
    var existing := ResolveTagIds(tagsets, typed, batch.tagsetName, batch.values).GetOr(map[]);
    var known := set key | key in existing.Keys :: key.1;
    assert forall v :: v in known <==> v in batch.values && TagIdOf(tagsets, typed, batch.tagsetName, v).Some?;
    assert known == set v | v in batch.values && TagIdOf(tagsets, typed, batch.tagsetName, v).Some?;
    UnresolvedCounts(batch.values, known);
    forall v ensures multiset(NewValues(tagsets, typed, batch))[v] ==
                     if TagIdOf(tagsets, typed, batch.tagsetName, v).Some? then 0 else multiset(batch.values)[v]
    {
      if v !in batch.values {
        assert multiset(batch.values)[v] == 0;
      }
    }
  }

  /** The batch has no new values exactly when, with the schema in place, all of its values already resolve. */
  lemma NewValuesEmptyIffAllResolve(tagsets: map<string, TagsetRow>, typed: map<string, seq<TypedRow>>, batch: Tags)
    requires TablesExist(typed) && Known(tagsets, batch.tagsetName)
    ensures NewValues(tagsets, typed, batch) == [] <==> AllResolve(tagsets, typed, batch)
  {
    ResolverAnswersUnderSchema(tagsets, typed, batch.tagsetName);
    var r := NewValues(tagsets, typed, batch);
    if r != [] {
      assert r[0] in r;
    }
  }

  /**
   * After the typed rows of the new values are appended to the tagset's table,
   * every value of the batch resolves and every value that resolved before
   * still does.
   */
  lemma BatchResolves(tagsets: map<string, TagsetRow>, typed: map<string, seq<TypedRow>>, batch: Tags, ids: seq<int>)
    requires TablesExist(typed) && Known(tagsets, batch.tagsetName)
    requires TableFor(tagsets[batch.tagsetName].tagtypeId).value in typed
    requires |ids| == |NewValues(tagsets, typed, batch)|
    ensures var row := tagsets[batch.tagsetName];
            var table := TableFor(row.tagtypeId).value;
            var after := typed[table := typed[table] + TypedRows(ids, NewValues(tagsets, typed, batch), row.id)];
            && AppendOnly(typed, after)
            && AllResolve(tagsets, after, batch)
            && forall name, v :: TagIdOf(tagsets, typed, name, v).Some? ==> TagIdOf(tagsets, after, name, v).Some?
  {
    ResolverAnswersUnderSchema(tagsets, typed, batch.tagsetName);
    var row := tagsets[batch.tagsetName];
    var table := TableFor(row.tagtypeId).value;
    var added := NewValues(tagsets, typed, batch);
    var more := TypedRows(ids, added, row.id);
    var after := typed[table := typed[table] + more];
    forall v | v in batch.values ensures TagIdOf(tagsets, after, batch.tagsetName, v).Some? {
      if TagIdOf(tagsets, typed, batch.tagsetName, v).None? {
        var k :| 0 <= k < |added| && added[k] == v;
        LastMatchFindsAppended(typed[table], more, k, row.id, v);
      } else {
        ResolutionKeptByAppend(tagsets, typed, after, batch.tagsetName, v);
      }
    }
    forall name, v | TagIdOf(tagsets, typed, name, v).Some? ensures TagIdOf(tagsets, after, name, v).Some? {
      ResolutionKeptByAppend(tagsets, typed, after, name, v);
    }
  }

  /**
   * What one `add_tags` call leaves, whichever way it went, follows from the
   * rows it wrote: the type tables only grow, every value of the batch now
   * resolves, a batch that already resolved writes nothing, and what resolved
   * before still does.
   */
  lemma TagsBatchEffect(tagsets: map<string, TagsetRow>, typed: map<string, seq<TypedRow>>, tags: map<int, TagRow>, lastTagId: int,
                        batch: Tags, committed: bool,
                        tags': map<int, TagRow>, lastTagId': int, typed': map<string, seq<TypedRow>>)
    requires TablesExist(typed) && batch.tagsetName in tagsets
    requires committed <==> Known(tagsets, batch.tagsetName) && |NewValues(tagsets, typed, batch)| > 0
    requires !committed ==> tags' == tags && lastTagId' == lastTagId && typed' == typed
    requires committed ==>
               BatchWritten(tags, lastTagId, typed, tagsets[batch.tagsetName], NewValues(tagsets, typed, batch), tags', lastTagId', typed')
    ensures AppendOnly(typed, typed') && typed'.Keys == typed.Keys
    ensures Known(tagsets, batch.tagsetName) ==> AllResolve(tagsets, typed', batch)
    ensures AllResolve(tagsets, typed, batch) ==> tags' == tags && typed' == typed
    ensures forall name, v :: TagIdOf(tagsets, typed, name, v).Some? ==> TagIdOf(tagsets, typed', name, v).Some?
  {
    if Known(tagsets, batch.tagsetName) {
      NewValuesEmptyIffAllResolve(tagsets, typed, batch);
      var row := tagsets[batch.tagsetName];
      TableForIsATypeTable(row.tagtypeId);
      var added := NewValues(tagsets, typed, batch);
      BatchResolves(tagsets, typed, batch, IdRange(lastTagId + |added|, |added|));
    }
  }

  /** Every tagset of the batch whose tags were requested, and whose type is known, has all its tags resolving. */
  ghost predicate RequestedResolve(tagsets: map<string, TagsetRow>, typed: map<string, seq<TypedRow>>, batch: seq<Tagset>) {
    forall i :: 0 <= i < |batch| && TagsRequested(batch[i]) && Known(tagsets, batch[i].tags.tagsetName) ==>
      AllResolve(tagsets, typed, batch[i].tags)
  }

  /** Growing the type tables keeps earlier tagsets resolving, and the next one resolves if it was added. */
  lemma RequestedResolveKept(tagsets: map<string, TagsetRow>, before: map<string, seq<TypedRow>>, after: map<string, seq<TypedRow>>,
                             done: seq<Tagset>, ts: Tagset)
    requires RequestedResolve(tagsets, before, done)
    requires forall name, v :: TagIdOf(tagsets, before, name, v).Some? ==> TagIdOf(tagsets, after, name, v).Some?
    requires TagsRequested(ts) && Known(tagsets, ts.tags.tagsetName) ==> AllResolve(tagsets, after, ts.tags)
    ensures RequestedResolve(tagsets, after, done + [ts])
  {
    var batch := done + [ts];
    forall i | 0 <= i < |batch| && TagsRequested(batch[i]) && Known(tagsets, batch[i].tags.tagsetName)
      ensures AllResolve(tagsets, after, batch[i].tags)
    {
      if i < |done| {
        assert batch[i] == done[i];
        assert AllResolve(tagsets, before, done[i].tags);
      }
    }
  }

  class Store {
    var tagsets: map<string, TagsetRow>
    var lastTagsetId: int
    var tags: map<int, TagRow>
    var lastTagId: int
    var typed: map<string, seq<TypedRow>>
    var medias: map<string, MediaRow>
    var lastMediaId: int
    var taggings: set<(int, int)>

    /** The schema's tables exist, ids are positive and below their counters, and typed rows are backed. */
    ghost predicate Valid()
      reads this
    {
      && 0 <= lastTagsetId && 0 <= lastTagId
      && (forall name :: name in tagsets ==> 1 <= tagsets[name].id <= lastTagsetId)
      && IdsUpTo(tags, lastTagId)
      && TablesExist(typed)
      && Coupled(tags, typed)
      && IdsValid(medias, lastMediaId)
    }

    /** A freshly initialised database: every table empty. */
    constructor ()
      ensures Valid()
      ensures tagsets == map[] && tags == map[] && medias == map[] && taggings == {}
      ensures forall table :: table in typed ==> typed[table] == []
    {
      tagsets, lastTagsetId := map[], 0;
      tags, lastTagId := map[], 0;
      var tables := map t | t in Members :: TableName(Name(t)) := [];
      forall t: TagType ensures TableName(Name(t)) in tables {
        assert t in Members;
      }
      typed := tables;
      medias, lastMediaId := map[], 0;
      taggings := {};
    }

    /** The write phase of `add_tags` in one transaction: committed, or rolled back with the tables as they were. */
    method CommitBatch(name: string, row: TagsetRow, added: seq<TagValue>) returns (status: Status)
      requires Valid()
      modifies this
      ensures Valid()
      ensures tagsets == old(tagsets) && lastTagsetId == old(lastTagsetId)
      ensures medias == old(medias) && lastMediaId == old(lastMediaId) && taggings == old(taggings)
      ensures status.Committed? <==> |added| > 0 && TableFor(row.tagtypeId).Some?
      ensures status.Committed? || status == RolledBack(NoNewTags(name)) || status == RolledBack(UnknownTagType(row.tagtypeId))
      ensures !status.Committed? ==> tags == old(tags) && lastTagId == old(lastTagId) && typed == old(typed)
      ensures status.Committed? ==> BatchWritten(old(tags), old(lastTagId), old(typed), row, added, tags, lastTagId, typed)
    {
      var tags', last', typed', error := WriteBatch(tags, lastTagId, typed, name, row, added);
      if error.Some? {
        return RolledBack(error.value);
      }
      tags, lastTagId, typed := tags', last', typed';
      status := Committed;
    }

    /**
     * `add_tags`: look the tagset up, keep the values that do not resolve yet,
     * and write them as one batch of contiguous ids.
     */
    method AddTags(batch: Tags) returns (status: Status)
      requires Valid()
      modifies this
      ensures Valid()
      ensures tagsets == old(tagsets) && lastTagsetId == old(lastTagsetId)
      ensures medias == old(medias) && lastMediaId == old(lastMediaId) && taggings == old(taggings)
      ensures status.Committed? || status.RolledBack?
      ensures status == RolledBack(TagsetNotFound(batch.tagsetName)) <==> batch.tagsetName !in tagsets
      ensures status.Committed? <==> Known(tagsets, batch.tagsetName) && |NewValues(old(tagsets), old(typed), batch)| > 0
      ensures !status.Committed? ==> tags == old(tags) && lastTagId == old(lastTagId) && typed == old(typed)
      ensures status.Committed? ==>
                BatchWritten(old(tags), old(lastTagId), old(typed), tagsets[batch.tagsetName], NewValues(old(tagsets), old(typed), batch),
                             tags, lastTagId, typed)
      ensures AppendOnly(old(typed), typed) && typed.Keys == old(typed).Keys
      ensures Known(tagsets, batch.tagsetName) ==> AllResolve(tagsets, typed, batch)
      ensures AllResolve(old(tagsets), old(typed), batch) ==> tags == old(tags) && typed == old(typed)
      ensures forall name, v :: TagIdOf(old(tagsets), old(typed), name, v).Some? ==> TagIdOf(tagsets, typed, name, v).Some?
    {
      if batch.tagsetName !in tagsets {
        // unpacking the None that fetchone() returns raises; nothing was written
        return RolledBack(TagsetNotFound(batch.tagsetName));
      }
      var row := tagsets[batch.tagsetName];
      var added := NewValues(tagsets, typed, batch);
      status := CommitBatch(batch.tagsetName, row, added);
      TagsBatchEffect(old(tagsets), old(typed), old(tags), old(lastTagId), batch, status.Committed?, tags, lastTagId, typed);
    }

    /** `INSERT [OR IGNORE] INTO tagsets` for the batch, committed as a whole or rolled back as a whole. */
    method InsertTagsets(batch: seq<Tagset>, ignoreExisting: bool) returns (status: Status)
      requires Valid()
      modifies this
      ensures Valid()
      ensures tags == old(tags) && lastTagId == old(lastTagId) && typed == old(typed)
      ensures medias == old(medias) && lastMediaId == old(lastMediaId) && taggings == old(taggings)
      ensures status.Committed? || status.RolledBack?
      ensures status.RolledBack? <==> !ignoreExisting && HasCollision(old(tagsets).Keys, batch)
      ensures status.RolledBack? ==> tagsets == old(tagsets) && lastTagsetId == old(lastTagsetId)
      ensures status.Committed? ==> TagsetsInserted(old(tagsets), old(lastTagsetId), batch, tagsets, lastTagsetId)
    {
      var pending, last, failed := InsertTagsetRows(tagsets, lastTagsetId, batch, ignoreExisting);
      InsertAllFailsOnCollision(tagsets, lastTagsetId, batch, ignoreExisting);
      InsertAllInserts(tagsets, lastTagsetId, batch, ignoreExisting);
      if failed.Some? {
        return RolledBack(DuplicateTagset(failed.value));
      }
      tagsets, lastTagsetId := pending, last;
      status := Committed;
    }

    /** One step of the `add_tagsets` loop: `add_tags` for the tagset when its tag list is not empty. */
    method AddRequestedTags(ts: Tagset)
      requires Valid()
      modifies this
      ensures Valid()
      ensures tagsets == old(tagsets) && lastTagsetId == old(lastTagsetId)
      ensures medias == old(medias) && lastMediaId == old(lastMediaId) && taggings == old(taggings)
      ensures AppendOnly(old(typed), typed) && typed.Keys == old(typed).Keys
      ensures !TagsRequested(ts) ==> tags == old(tags) && lastTagId == old(lastTagId) && typed == old(typed)
      ensures TagsRequested(ts) && Known(tagsets, ts.tags.tagsetName) ==> AllResolve(tagsets, typed, ts.tags)
      ensures forall name, v :: TagIdOf(tagsets, old(typed), name, v).Some? ==> TagIdOf(tagsets, typed, name, v).Some?
    {
      if TagsRequested(ts) {
        var _ := AddTags(ts.tags);
      }
    }

    /**
     * `add_tagsets`: insert the tagsets and commit them as a checkpoint, then
     * call `add_tags` for each tagset whose tag list is not empty. A failing
     * `add_tags` rolls back its own batch only; the loop goes on.
     */
    method AddTagsets(batch: seq<Tagset>, ignoreExisting: bool) returns (status: Status)
      requires Valid()
      modifies this
      ensures Valid()
      ensures medias == old(medias) && lastMediaId == old(lastMediaId) && taggings == old(taggings)
      ensures status.Committed? || status.RolledBack?
      ensures status.RolledBack? <==> !ignoreExisting && HasCollision(old(tagsets).Keys, batch)
      ensures status.RolledBack? ==>
                && tagsets == old(tagsets) && lastTagsetId == old(lastTagsetId)
                && tags == old(tags) && lastTagId == old(lastTagId) && typed == old(typed)
      ensures status.Committed? ==> TagsetsInserted(old(tagsets), old(lastTagsetId), batch, tagsets, lastTagsetId)
      ensures AppendOnly(old(typed), typed)
      ensures status.Committed? ==> RequestedResolve(tagsets, typed, batch)
    {
      status := InsertTagsets(batch, ignoreExisting);
      if status.RolledBack? {
        return;
      }
      // connection.commit(): the tagsets are kept whatever happens to their tags
      AddRequestedTagsAll(batch);
    }

    /** The loop of `add_tagsets` over the committed tagsets: `add_tags` for each whose tag list is not empty. */
    method AddRequestedTagsAll(batch: seq<Tagset>)
      requires Valid()
      modifies this
      ensures Valid()
      ensures tagsets == old(tagsets) && lastTagsetId == old(lastTagsetId)
      ensures medias == old(medias) && lastMediaId == old(lastMediaId) && taggings == old(taggings)
      ensures AppendOnly(old(typed), typed)
      ensures RequestedResolve(tagsets, typed, batch)
    {
      var k := 0;
      while k < |batch|
        invariant 0 <= k <= |batch|
        invariant Valid()
        invariant tagsets == old(tagsets) && lastTagsetId == old(lastTagsetId)
        invariant medias == old(medias) && lastMediaId == old(lastMediaId) && taggings == old(taggings)
        invariant AppendOnly(old(typed), typed)
        invariant RequestedResolve(tagsets, typed, batch[..k])
      {
        assert batch[..k + 1] == batch[..k] + [batch[k]];
        ghost var before := typed;
        AddRequestedTags(batch[k]);
        RequestedResolveKept(tagsets, before, typed, batch[..k], batch[k]);
        AppendOnlyTransitive(old(typed), before, typed);
        k := k + 1;
      }
      assert batch[..k] == batch;
    }

    /**
     * `add_medias`: bucket the objects by group, elect each group's leader
     * and check that every group has one, all before writing. Then, group by
     * group, write the leader and its members and commit. A member insert that
     * raises rolls back its own group and ends the call; earlier groups stay.
     */
    method AddMedias(objs: seq<MediaObject>, ignoreExisting: bool) returns (status: Status)
      requires Valid()
      modifies this
      ensures Valid()
      ensures tagsets == old(tagsets) && lastTagsetId == old(lastTagsetId) && tags == old(tags) && lastTagId == old(lastTagId)
      ensures typed == old(typed) && taggings == old(taggings)
      ensures status.Committed? || status.RolledBack?
      ensures (status.RolledBack? && status.error.GroupLeaderNotFound?) <==>
                exists g :: IsGroupKey(objs, g) && !HasSource(objs, g)
      ensures status.RolledBack? && status.error.GroupLeaderNotFound? ==>
                IsGroupKey(objs, status.error.group) && !HasSource(objs, status.error.group)
                && medias == old(medias) && lastMediaId == old(lastMediaId)
      ensures status.RolledBack? && !status.error.GroupLeaderNotFound? ==> !ignoreExisting && status.error.DuplicateMedia?
      ensures (!ignoreExisting && DistinctSources(objs) && MembersAbsent(objs, old(medias))
               && forall g :: IsGroupKey(objs, g) ==> HasSource(objs, g)) ==> status.Committed?
      ensures status.RolledBack? && status.error.DuplicateMedia? && DistinctSources(objs) ==>
                exists mo :: mo in objs && mo.group.Some? && mo.source in old(medias)
      ensures RowsKept(old(medias), medias)
      ensures NewRowsFromGroups(objs, old(medias), old(lastMediaId), medias)
      ensures status.Committed? ==> forall s :: Grouped(objs, s) ==> s in medias
      ensures status.Committed? && !ignoreExisting && DistinctSources(objs) ==>
                forall mo :: mo in objs && mo.group.Some? ==>
                  mo.group.value in medias && mo.source in medias && medias[mo.source].groupId == Some(medias[mo.group.value].id)
    {
      var buckets, order, leaders, missing := PlanGroups(objs);
      if missing.Some? {
        return RolledBack(GroupLeaderNotFound(missing.value));
      }
      var rows, last, failed := WriteGroups(objs, buckets, order, leaders, medias, lastMediaId, ignoreExisting);
      // each group was committed on its own: the groups before a failure stay
      medias, lastMediaId := rows, last;
      if failed.Some? {
        return RolledBack(DuplicateMedia(failed.value));
      }
      status := Committed;
    }

    /**
     * `add_media_taggings`: gather the media ids and the requested values per
     * tagset, resolve each tagset once, and insert the resulting pairs with
     * INSERT OR IGNORE. A missing media source or a resolver failure raises
     * before anything is written, and the batch is rolled back.
     */
    method AddMediaTaggings(mappings: seq<MediaTagMapping>) returns (status: Status)
      requires Valid()
      modifies this
      ensures Valid()
      ensures tagsets == old(tagsets) && lastTagsetId == old(lastTagsetId) && tags == old(tags) && lastTagId == old(lastTagId)
      ensures typed == old(typed) && medias == old(medias) && lastMediaId == old(lastMediaId)
      ensures status.Committed? || status.RolledBack?
      ensures (status.RolledBack? && status.error.MediaNotFound?) <==> SomeMediaMissing(medias, mappings)
      ensures status.RolledBack? && status.error.MediaNotFound? ==>
                status.error.source !in medias && exists i :: 0 <= i < |mappings| && mappings[i].mediaSource == status.error.source
      ensures !SomeMediaMissing(medias, mappings) ==>
                (status.RolledBack? <==> exists name :: Names(mappings, name) && ResolverFails(tagsets, typed, name))
      ensures status.RolledBack? && status.error.ResolverFailed? ==>
                Names(mappings, status.error.tagsetName) && ResolverFails(tagsets, typed, status.error.tagsetName)
      ensures status.RolledBack? ==> taggings == old(taggings)
      ensures status.Committed? ==> forall p :: p in taggings <==> p in old(taggings) || Links(medias, tagsets, typed, mappings, p)
      ensures (forall p :: Links(medias, tagsets, typed, mappings, p) ==> p in old(taggings)) ==> taggings == old(taggings)
    {
      var mediaIds, requested, missing := LookUpAndGather(medias, mappings);
      if missing.Some? {
        return RolledBack(MediaNotFound(missing.value));
      }
      GatherIsRequests(mappings);
      var tagMap, failed := ResolveAll(tagsets, typed, requested);
      if failed.Some? {
        return RolledBack(ResolverFailed(failed.value));
      }
      var pairs := CollectTaggings(mediaIds, tagMap, mappings);
      PairsAreLinks(medias, tagsets, typed, mappings, mediaIds, tagMap);
      InsertTaggings(pairs);
      status := Committed;
    }

    /** `executemany("INSERT OR IGNORE INTO taggings ...")`: a pair already present is skipped. */
    method InsertTaggings(pairs: seq<(int, int)>)
      modifies this
      ensures taggings == old(taggings) + set p | p in pairs
      ensures tagsets == old(tagsets) && lastTagsetId == old(lastTagsetId) && tags == old(tags) && lastTagId == old(lastTagId)
      ensures typed == old(typed) && medias == old(medias) && lastMediaId == old(lastMediaId)
    {
      var i := 0;
      while i < |pairs|
        invariant 0 <= i <= |pairs|
        invariant taggings == old(taggings) + set p | p in pairs[..i]
        invariant tagsets == old(tagsets) && lastTagsetId == old(lastTagsetId) && tags == old(tags) && lastTagId == old(lastTagId)
        invariant typed == old(typed) && medias == old(medias) && lastMediaId == old(lastMediaId)
      {
        assert pairs[..i + 1] == pairs[..i] + [pairs[i]];
        if pairs[i] !in taggings {
          taggings := taggings + {pairs[i]};
        }
        i := i + 1;
      }
      assert pairs[..i] == pairs;
    }
  }
}
