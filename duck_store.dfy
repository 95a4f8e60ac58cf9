/**
 * The DuckDB loader: the same tag tables as the SQLite loader, one `DuckStore`
 * object whose fields are its tables, and its three writers as methods.
 * Unlike the SQLite loader it adds every value it is given (no check for
 * values already present), and it looks a single tag up with `fetchone()`,
 * which finds the first row holding the value.
 */
module DuckLoader {
  import opened Outcomes
  import opened TagTypes
  import opened Tables
  import opened TagsetTable
  import opened TagWrites

  /** The tagset exists and its type id names one of the type tables. */
  predicate Typed(tagsets: map<string, TagsetRow>, name: string) {
    name in tagsets && TableFor(tagsets[name].tagtypeId).Some?
  }

  /** The tag `add_media_tagging` finds for a value: the first row of the tagset's type table holding it. */
  function FindTag(tagsets: map<string, TagsetRow>, typed: map<string, seq<TypedRow>>, name: string, v: TagValue): Option<int> {
    if !Typed(tagsets, name) || TableFor(tagsets[name].tagtypeId).value !in typed then None
    else FirstMatch(typed[TableFor(tagsets[name].tagtypeId).value], tagsets[name].id, v)
  }

  /** Every value of the batch is found under its tagset. */
  ghost predicate AllFound(tagsets: map<string, TagsetRow>, typed: map<string, seq<TypedRow>>, batch: Tags) {
    forall v :: v in batch.values ==> FindTag(tagsets, typed, batch.tagsetName, v).Some?
  }

  /** Appending rows to the type tables never changes the tag a value is found as once it is found. */
  lemma FoundKeptByAppend(tagsets: map<string, TagsetRow>, before: map<string, seq<TypedRow>>,
                          after: map<string, seq<TypedRow>>, name: string, v: TagValue)
    requires AppendOnly(before, after)
    requires FindTag(tagsets, before, name, v).Some?
    ensures FindTag(tagsets, after, name, v) == FindTag(tagsets, before, name, v)
  {
    var table := TableFor(tagsets[name].tagtypeId).value;
    FirstMatchKeptByAppend(before[table], after[table][|before[table]|..], tagsets[name].id, v);
    assert before[table] + after[table][|before[table]|..] == after[table];
  }

  /**
   * After a batch is written, every value of it is found under its tagset,
   * and every value found before is still found as the same tag: a value
   * added twice keeps resolving to its first row.
   */
  lemma BatchFound(tagsets: map<string, TagsetRow>, batch: Tags, tags: map<int, TagRow>, last: int,
                   typed: map<string, seq<TypedRow>>, tags': map<int, TagRow>, last': int, typed': map<string, seq<TypedRow>>)
    requires batch.tagsetName in tagsets
    requires BatchWritten(tags, last, typed, tagsets[batch.tagsetName], batch.values, tags', last', typed')
    ensures AppendOnly(typed, typed') && typed'.Keys == typed.Keys
    ensures AllFound(tagsets, typed', batch)
    ensures forall name, v :: FindTag(tagsets, typed, name, v).Some? ==> FindTag(tagsets, typed', name, v) == FindTag(tagsets, typed, name, v)
  {
    var row := tagsets[batch.tagsetName];
    var table := TableFor(row.tagtypeId).value;
    var more := TypedRows(IdRange(last', |batch.values|), batch.values, row.id);
    assert typed'[table] == typed[table] + more;
    forall v | v in batch.values ensures FindTag(tagsets, typed', batch.tagsetName, v).Some? {
      var k :| 0 <= k < |batch.values| && batch.values[k] == v;
      FirstMatchFindsAppended(typed[table], more, k, row.id, v);
    }
    forall name, v | FindTag(tagsets, typed, name, v).Some?
      ensures FindTag(tagsets, typed', name, v) == FindTag(tagsets, typed, name, v)
    {
      FoundKeptByAppend(tagsets, typed, typed', name, v);
    }
  }

  /** Every tagset of the batch whose tags were requested, and whose type is known, has all its tags found. */
  ghost predicate RequestedFound(tagsets: map<string, TagsetRow>, typed: map<string, seq<TypedRow>>, batch: seq<Tagset>) {
    forall i :: 0 <= i < |batch| && TagsRequested(batch[i]) && Typed(tagsets, batch[i].tags.tagsetName) ==>
      AllFound(tagsets, typed, batch[i].tags)
  }

  /** Growing the type tables keeps earlier tagsets found, and the next one is found if it was added. */
  lemma RequestedFoundKept(tagsets: map<string, TagsetRow>, before: map<string, seq<TypedRow>>, after: map<string, seq<TypedRow>>,
                           done: seq<Tagset>, ts: Tagset)
    requires RequestedFound(tagsets, before, done)
    requires forall name, v :: FindTag(tagsets, before, name, v).Some? ==> FindTag(tagsets, after, name, v) == FindTag(tagsets, before, name, v)
    requires TagsRequested(ts) && Typed(tagsets, ts.tags.tagsetName) ==> AllFound(tagsets, after, ts.tags)
    ensures RequestedFound(tagsets, after, done + [ts])
  {
    var batch := done + [ts];
    forall i | 0 <= i < |batch| && TagsRequested(batch[i]) && Typed(tagsets, batch[i].tags.tagsetName)
      ensures AllFound(tagsets, after, batch[i].tags)
    {
      if i < |done| {
        assert batch[i] == done[i];
        assert AllFound(tagsets, before, done[i].tags);
      }
    }
  }

  class DuckStore {
    var tagsets: map<string, TagsetRow>
    var lastTagsetId: int
    var tags: map<int, TagRow>
    var lastTagId: int
    var typed: map<string, seq<TypedRow>>
    var taggings: set<(int, int)>

    /** The schema's tables exist, ids are positive and below their counters, and typed rows are backed. */
    ghost predicate Valid()
      reads this
    {
      && 0 <= lastTagsetId && 0 <= lastTagId
      && (forall name :: name in tagsets ==> 1 <= tagsets[name].id <= lastTagsetId)
      && IdsUpTo(tags, lastTagId)
      && TablesExist(typed)
      && Coupled(tags, typed)
    }

    /** A freshly initialised database: every table empty. */
    constructor ()
      ensures Valid()
      ensures tagsets == map[] && tags == map[] && taggings == {}
      ensures forall table :: table in typed ==> typed[table] == []
    {
      tagsets, lastTagsetId := map[], 0;
      tags, lastTagId := map[], 0;
      var tables := map t | t in Members :: TableName(Name(t)) := [];
      forall t: TagType ensures TableName(Name(t)) in tables {
        assert t in Members;
      }
      typed := tables;
      taggings := {};
    }

    /** The write phase of `add_tags` between BEGIN and COMMIT: committed, or rolled back with the tables as they were. */
    method CommitBatch(name: string, row: TagsetRow, values: seq<TagValue>) returns (status: Status)
      requires Valid()
      modifies this
      ensures Valid()
      ensures tagsets == old(tagsets) && lastTagsetId == old(lastTagsetId) && taggings == old(taggings)
      ensures status.Committed? <==> |values| > 0 && TableFor(row.tagtypeId).Some?
      ensures status.Committed? || status == RolledBack(NoNewTags(name)) || status == RolledBack(UnknownTagType(row.tagtypeId))
      ensures !status.Committed? ==> tags == old(tags) && lastTagId == old(lastTagId) && typed == old(typed)
      ensures status.Committed? ==> BatchWritten(old(tags), old(lastTagId), old(typed), row, values, tags, lastTagId, typed)
    {
      var tags', last', typed', error := WriteBatch(tags, lastTagId, typed, name, row, values);
      if error.Some? {
        return RolledBack(error.value);
      }
      tags, lastTagId, typed := tags', last', typed';
      status := Committed;
    }

    /**
     * `add_tags`: look the tagset up, then write every value as one batch of
     * contiguous ids. An unknown tagset raises before BEGIN, and the ROLLBACK
     * in the handler raises again with no transaction open, so the exception
     * leaves the call.
     */
    method AddTags(batch: Tags) returns (status: Status)
      requires Valid()
      modifies this
      ensures Valid()
      ensures tagsets == old(tagsets) && lastTagsetId == old(lastTagsetId) && taggings == old(taggings)
      ensures status.Committed? || status.RolledBack? || status == Raised(TagsetNotFound(batch.tagsetName))
      ensures status == Raised(TagsetNotFound(batch.tagsetName)) <==> batch.tagsetName !in tagsets
      ensures status.Committed? <==> Typed(tagsets, batch.tagsetName) && |batch.values| > 0
      ensures status.RolledBack? ==> status.error.NoNewTags? || status.error.UnknownTagType?
      ensures !status.Committed? ==> tags == old(tags) && lastTagId == old(lastTagId) && typed == old(typed)
      ensures status.Committed? ==>
                BatchWritten(old(tags), old(lastTagId), old(typed), tagsets[batch.tagsetName], batch.values, tags, lastTagId, typed)
      ensures AppendOnly(old(typed), typed) && typed.Keys == old(typed).Keys
      ensures status.Committed? ==> AllFound(tagsets, typed, batch)
      ensures forall name, v :: FindTag(tagsets, old(typed), name, v).Some? ==> FindTag(tagsets, typed, name, v) == FindTag(tagsets, old(typed), name, v)
    {
      if batch.tagsetName !in tagsets {
        return Raised(TagsetNotFound(batch.tagsetName));
      }
      var row := tagsets[batch.tagsetName];
      status := CommitBatch(batch.tagsetName, row, batch.values);
      if status.Committed? {
        BatchFound(tagsets, batch, old(tags), old(lastTagId), old(typed), tags, lastTagId, typed);
      }
    }

    /** `INSERT [OR IGNORE] INTO tagsets` for the batch between BEGIN and COMMIT, or rolled back as a whole. */
    method InsertTagsets(batch: seq<Tagset>, ignoreExisting: bool) returns (status: Status)
      requires Valid()
      modifies this
      ensures Valid()
      ensures tags == old(tags) && lastTagId == old(lastTagId) && typed == old(typed) && taggings == old(taggings)
      ensures status.Committed? || status.RolledBack?
      ensures status.RolledBack? <==> !ignoreExisting && HasCollision(old(tagsets).Keys, batch)
      ensures status.RolledBack? ==> tagsets == old(tagsets) && lastTagsetId == old(lastTagsetId)
      ensures status.Committed? ==> TagsetsInserted(old(tagsets), old(lastTagsetId), batch, tagsets, lastTagsetId)
    {
      var pending, last, failed := InsertTagsetRows(tagsets, lastTagsetId, batch, ignoreExisting);
      InsertAllFailsOnCollision(tagsets, lastTagsetId, batch, ignoreExisting);
      InsertAllInserts(tagsets, lastTagsetId, batch, ignoreExisting);
      if failed.Some? {
        return RolledBack(DuplicateTagset(failed.value));
      }
      tagsets, lastTagsetId := pending, last;
      status := Committed;
    }

    /** One step of the `add_tagsets` loop: `add_tags` for the tagset when its tag list is not empty. */
    method AddRequestedTags(ts: Tagset) returns (status: Status)
      requires Valid()
      modifies this
      ensures Valid()
      ensures tagsets == old(tagsets) && lastTagsetId == old(lastTagsetId) && taggings == old(taggings)
      ensures AppendOnly(old(typed), typed)
      ensures status.Raised? <==> TagsRequested(ts) && ts.tags.tagsetName !in tagsets
      ensures status.Raised? ==> status == Raised(TagsetNotFound(ts.tags.tagsetName))
      ensures TagsRequested(ts) && Typed(tagsets, ts.tags.tagsetName) ==> AllFound(tagsets, typed, ts.tags)
      ensures forall name, v :: FindTag(tagsets, old(typed), name, v).Some? ==> FindTag(tagsets, typed, name, v) == FindTag(tagsets, old(typed), name, v)
    {
      status := Committed;
      if TagsRequested(ts) {
        status := AddTags(ts.tags);
      }
    }

    /**
     * The loop of `add_tagsets` over the committed tagsets: `add_tags` for each
     * whose tag list is not empty. An exception that leaves `add_tags` ends the
     * loop, and the handler's ROLLBACK on the closed cursor raises again.
     */
    method AddRequestedTagsAll(batch: seq<Tagset>) returns (status: Status)
      requires Valid()
      modifies this
      ensures Valid()
      ensures tagsets == old(tagsets) && lastTagsetId == old(lastTagsetId) && taggings == old(taggings)
      ensures status.Committed? || status.Raised?
      ensures status.Committed? <==> forall i :: 0 <= i < |batch| && TagsRequested(batch[i]) ==> batch[i].tags.tagsetName in tagsets
      ensures status.Raised? ==>
                status.error.TagsetNotFound? && status.error.tagsetName !in tagsets
                && exists i :: 0 <= i < |batch| && TagsRequested(batch[i]) && batch[i].tags.tagsetName == status.error.tagsetName
      ensures AppendOnly(old(typed), typed)
      ensures status.Committed? ==> RequestedFound(tagsets, typed, batch)
    {
      var k := 0;
      while k < |batch|
        invariant 0 <= k <= |batch|
        invariant Valid()
        invariant tagsets == old(tagsets) && lastTagsetId == old(lastTagsetId) && taggings == old(taggings)
        invariant AppendOnly(old(typed), typed)
        invariant forall i :: 0 <= i < k && TagsRequested(batch[i]) ==> batch[i].tags.tagsetName in tagsets
        invariant RequestedFound(tagsets, typed, batch[..k])
      {
        assert batch[..k + 1] == batch[..k] + [batch[k]];
        ghost var before := typed;
        var tagStatus := AddRequestedTags(batch[k]);
        if tagStatus.Raised? {
          AppendOnlyTransitive(old(typed), before, typed);
          return tagStatus;
        }
        RequestedFoundKept(tagsets, before, typed, batch[..k], batch[k]);
        AppendOnlyTransitive(old(typed), before, typed);
        k := k + 1;
      }
      assert batch[..k] == batch;
      status := Committed;
    }

    /**
     * `add_tagsets`: insert the tagsets in one transaction and commit, then
     * call `add_tags` for each tagset whose tag list is not empty. A tag batch
     * that fails is rolled back on its own and the loop goes on, except an
     * unknown tagset, whose exception leaves the call.
     */
    method AddTagsets(batch: seq<Tagset>, ignoreExisting: bool) returns (status: Status)
      requires Valid()
      modifies this
      ensures Valid()
      ensures taggings == old(taggings)
      ensures status.RolledBack? <==> !ignoreExisting && HasCollision(old(tagsets).Keys, batch)
      ensures status.RolledBack? ==>
                && tagsets == old(tagsets) && lastTagsetId == old(lastTagsetId)
                && tags == old(tags) && lastTagId == old(lastTagId) && typed == old(typed)
      ensures !status.RolledBack? ==> TagsetsInserted(old(tagsets), old(lastTagsetId), batch, tagsets, lastTagsetId)
      ensures status.Committed? <==>
                !status.RolledBack? && forall i :: 0 <= i < |batch| && TagsRequested(batch[i]) ==> batch[i].tags.tagsetName in tagsets
      ensures status.Raised? ==> status.error.TagsetNotFound? && status.error.tagsetName !in tagsets
      ensures AppendOnly(old(typed), typed)
      ensures status.Committed? ==> RequestedFound(tagsets, typed, batch)
    {
      status := InsertTagsets(batch, ignoreExisting);
      if status.RolledBack? {
        return;
      }
      status := AddRequestedTagsAll(batch);
    }

    /**
     * `add_media_tagging`: find the tagset's type table, then the first tag of
     * the tagset holding the value, and insert one tagging for it. An unknown
     * tagset or type, a value with no tag, or a tagging already present raises;
     * the handler only reports it, and nothing is inserted.
     */
    method AddMediaTagging(tagsetName: string, value: TagValue, mediaId: int) returns (status: Status)
      requires Valid()
      modifies this
      ensures Valid()
      ensures tagsets == old(tagsets) && lastTagsetId == old(lastTagsetId) && tags == old(tags) && lastTagId == old(lastTagId)
      ensures typed == old(typed)
      ensures status.Committed? || status.RolledBack?
      ensures status.Committed? <==>
                FindTag(tagsets, typed, tagsetName, value).Some? && (mediaId, FindTag(tagsets, typed, tagsetName, value).value) !in old(taggings)
      ensures status.Committed? ==> taggings == old(taggings) + {(mediaId, FindTag(tagsets, typed, tagsetName, value).value)}
      ensures !status.Committed? ==> taggings == old(taggings)
      ensures status == RolledBack(TagsetNotFound(tagsetName)) <==> tagsetName !in tagsets
      ensures status == RolledBack(TagNotFound(tagsetName, value)) <==>
                Typed(tagsets, tagsetName) && FindTag(tagsets, typed, tagsetName, value).None?
    {
      if tagsetName !in tagsets {
        // the tag type query finds no row, and indexing the None raises
        return RolledBack(TagsetNotFound(tagsetName));
      }
      var row := tagsets[tagsetName];
      var table := TableFor(row.tagtypeId);
      if table.None? {
        // no `tag_types` row joins the tagset's type id
        return RolledBack(UnknownTagType(row.tagtypeId));
      }
      TableForIsATypeTable(row.tagtypeId);
      var tag := FirstMatch(typed[table.value], row.id, value);
      if tag.None? {
        return RolledBack(TagNotFound(tagsetName, value));
      }
      if (mediaId, tag.value) in taggings {
        // the taggings key rejects a second row for the pair
        return RolledBack(DuplicateTagging(mediaId, tag.value));
      }
      taggings := taggings + {(mediaId, tag.value)};
      status := Committed;
    }
  }
}
