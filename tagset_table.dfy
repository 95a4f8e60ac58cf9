/**
 * The loaders' input records for tags and tagsets, and the insert of a batch
 * of tagsets into the `tagsets` table that both loaders run inside one
 * transaction.
 */
module TagsetTable {
  import opened Outcomes
  import opened TagTypes
  import opened Tables

  /** `Tags`: the values to add under the tagset named `tagsetName`. */
  datatype Tags = Tags(tagsetName: string, values: seq<TagValue>)

  /** `Tagset`: a tagset to create, with the tags to add to it. */
  datatype Tagset = Tagset(name: string, tagtype: TagType, tags: Tags)

  /** A tagset of the batch collides with an existing tagset or with an earlier tagset of the batch. */
  ghost predicate HasCollision(existing: set<string>, batch: seq<Tagset>) {
    exists i :: 0 <= i < |batch| && (batch[i].name in existing || exists j :: 0 <= j < i && batch[j].name == batch[i].name)
  }

  /** The first tagset of the batch named `name` has type id `tagtypeId`. */
  ghost predicate FirstOfNameHasType(batch: seq<Tagset>, name: string, tagtypeId: int) {
    exists i :: 0 <= i < |batch| && batch[i].name == name && Value(batch[i].tagtype) == tagtypeId
                && forall j :: 0 <= j < i ==> batch[j].name != name
  }

  /** `add_tagsets` asks for the tags of this tagset to be added. */
  predicate TagsRequested(ts: Tagset) {
    |ts.tags.values| > 0
  }

  /**
   * What inserting the batch did to the tagsets table: earlier rows are kept
   * as they were, every name of the batch is present, and each new name got an
   * id above the old counter and the type of the first tagset of that name.
   */
  ghost predicate TagsetsInserted(before: map<string, TagsetRow>, lastBefore: int, batch: seq<Tagset>,
                                  after: map<string, TagsetRow>, lastAfter: int)
  {
    && lastBefore <= lastAfter
    && (forall name :: name in before ==> name in after && after[name] == before[name])
    && (forall name :: name in after <==> name in before || exists i :: 0 <= i < |batch| && batch[i].name == name)
    && (forall name :: name in after && name !in before ==>
          lastBefore < after[name].id <= lastAfter && FirstOfNameHasType(batch, name, after[name].tagtypeId))
  }

  /** The tagsets table while `executemany` runs, and the name it raised on, if any. */
  datatype TagsetInsert = TagsetInsert(rows: map<string, TagsetRow>, last: int, failed: Option<string>)

  /**
   * `executemany("INSERT [OR IGNORE] INTO tagsets ...")` row by row: each new
   * name gets the next id; with `OR IGNORE` a name already present is skipped,
   * without it the first such name raises and the rest is not inserted.
   */
  function InsertAll(table: map<string, TagsetRow>, last: int, batch: seq<Tagset>, ignoreExisting: bool): (r: TagsetInsert)
    ensures last <= r.last
    ensures r.failed.Some? ==> !ignoreExisting
    decreases |batch|
  {
    if |batch| == 0 then TagsetInsert(table, last, None)
    else
      var prev := InsertAll(table, last, batch[..|batch| - 1], ignoreExisting);
      var ts := batch[|batch| - 1];
      if prev.failed.Some? then prev
      else if ts.name in prev.rows then
        (if ignoreExisting then prev else TagsetInsert(prev.rows, prev.last, Some(ts.name)))
      else TagsetInsert(prev.rows[ts.name := TagsetRow(prev.last + 1, Value(ts.tagtype))], prev.last + 1, None)
  }

  /** The insert raises exactly when it is not ignoring and some name is taken or repeated. */
  lemma {:induction false} InsertAllFailsOnCollision(table: map<string, TagsetRow>, last: int, batch: seq<Tagset>, ignoreExisting: bool)
    ensures InsertAll(table, last, batch, ignoreExisting).failed.Some? <==> !ignoreExisting && HasCollision(table.Keys, batch)
    decreases |batch|
  {
    if |batch| > 0 {
      var init := batch[..|batch| - 1];
      var ts := batch[|batch| - 1];
      InsertAllFailsOnCollision(table, last, init, ignoreExisting);
      InsertAllInserts(table, last, init, ignoreExisting);
      assert init + [ts] == batch;
      CollisionOfExtendedBatch(table.Keys, init, ts);
    }
  }

  /** A batch one tagset longer collides when its prefix does or when the new name is taken or repeated. */
  lemma CollisionOfExtendedBatch(existing: set<string>, init: seq<Tagset>, ts: Tagset)
    ensures HasCollision(existing, init + [ts]) <==>
              HasCollision(existing, init) || ts.name in existing || exists k :: 0 <= k < |init| && init[k].name == ts.name
  {
    var batch := init + [ts];
    assert forall k :: 0 <= k < |init| ==> batch[k] == init[k];
    if ts.name in existing {
      assert batch[|init|] == ts;
    }
    if exists k :: 0 <= k < |init| && init[k].name == ts.name {
      var k :| 0 <= k < |init| && init[k].name == ts.name;
      assert batch[k].name == batch[|init|].name;
    }
  }

  /** When the insert does not raise, it leaves the rows `TagsetsInserted` describes. */
  lemma {:induction false} InsertAllInserts(table: map<string, TagsetRow>, last: int, batch: seq<Tagset>, ignoreExisting: bool)
    ensures InsertAll(table, last, batch, ignoreExisting).failed.None? ==>
              TagsetsInserted(table, last, batch, InsertAll(table, last, batch, ignoreExisting).rows,
                              InsertAll(table, last, batch, ignoreExisting).last)
    decreases |batch|
  {
    if |batch| > 0 {
      var init := batch[..|batch| - 1];
      var ts := batch[|batch| - 1];
      InsertAllInserts(table, last, init, ignoreExisting);
      var prev := InsertAll(table, last, init, ignoreExisting);
      var r := InsertAll(table, last, batch, ignoreExisting);
      assert init + [ts] == batch;
      if prev.failed.None? && r.failed.None? {
        NamesOfBatchExtend(table, last, init, ts, prev, r);
      }
    }
  }

  /** One more tagset keeps `TagsetsInserted`, whether its name was new or already present. */
  lemma NamesOfBatchExtend(table: map<string, TagsetRow>, last: int, init: seq<Tagset>, ts: Tagset,
                           prev: TagsetInsert, r: TagsetInsert)
    requires TagsetsInserted(table, last, init, prev.rows, prev.last)
    requires ts.name in prev.rows ==> r == prev
    requires ts.name !in prev.rows ==> r.rows == prev.rows[ts.name := TagsetRow(prev.last + 1, Value(ts.tagtype))] && r.last == prev.last + 1
    ensures TagsetsInserted(table, last, init + [ts], r.rows, r.last)
  {
    var batch := init + [ts];
    forall name | name in r.rows && name !in table
      ensures last < r.rows[name].id <= r.last && FirstOfNameHasType(batch, name, r.rows[name].tagtypeId)
    {
      NewNameOfBatchExtend(table, last, init, ts, prev, r, name);
    }
    forall name | name in table || exists k :: 0 <= k < |batch| && batch[k].name == name
      ensures name in r.rows
    {
      if name !in table && name != ts.name {
        var k :| 0 <= k < |batch| && batch[k].name == name;
        assert batch[k] == init[k];
      }
    }
  }

  /** A name new since `table` still has the id and the type of its first tagset after one more tagset. */
  lemma NewNameOfBatchExtend(table: map<string, TagsetRow>, last: int, init: seq<Tagset>, ts: Tagset,
                             prev: TagsetInsert, r: TagsetInsert, name: string)
    requires TagsetsInserted(table, last, init, prev.rows, prev.last)
    requires ts.name in prev.rows ==> r == prev
    requires ts.name !in prev.rows ==> r.rows == prev.rows[ts.name := TagsetRow(prev.last + 1, Value(ts.tagtype))] && r.last == prev.last + 1
    requires name in r.rows && name !in table
    ensures last < r.rows[name].id <= r.last && FirstOfNameHasType(init + [ts], name, r.rows[name].tagtypeId)
  {
    var batch := init + [ts];
    if name in prev.rows {
      var k :| 0 <= k < |init| && init[k].name == name && Value(init[k].tagtype) == prev.rows[name].tagtypeId
               && forall j :: 0 <= j < k ==> init[j].name != name;
      assert batch[k] == init[k];
      assert forall j :: 0 <= j < k ==> batch[j] == init[j];
    } else {
      assert batch[|init|] == ts;
      forall j | 0 <= j < |init| ensures batch[j].name != name {
        assert batch[j] == init[j];
        assert init[j].name in prev.rows;
      }
    }
  }

  /** The same insert, with the rows kept in local variables until the transaction ends. */
  method InsertTagsetRows(table: map<string, TagsetRow>, last: int, batch: seq<Tagset>, ignoreExisting: bool)
    returns (pending: map<string, TagsetRow>, pendingLast: int, failed: Option<string>)
    ensures TagsetInsert(pending, pendingLast, failed) == InsertAll(table, last, batch, ignoreExisting)
  {
    pending, pendingLast, failed := table, last, None;
    var i := 0;
    while i < |batch|
      invariant 0 <= i <= |batch|
      invariant TagsetInsert(pending, pendingLast, None) == InsertAll(table, last, batch[..i], ignoreExisting)
    {
      var ts := batch[i];
      assert batch[..i + 1][..i] == batch[..i];
      if ts.name in pending {
        if !ignoreExisting {
          assert batch[..i + 1] == batch[..i] + [ts];
          InsertAllStops(table, last, batch, i + 1, ignoreExisting);
          return pending, pendingLast, Some(ts.name);
        }
      } else {
        pendingLast := pendingLast + 1;
        pending := pending[ts.name := TagsetRow(pendingLast, Value(ts.tagtype))];
      }
      i := i + 1;
    }
    assert batch[..i] == batch;
  }

  /** Once the insert has raised, the rest of the batch changes nothing. */
  lemma {:induction false} InsertAllStops(table: map<string, TagsetRow>, last: int, batch: seq<Tagset>, n: nat, ignoreExisting: bool)
    requires n <= |batch|
    requires InsertAll(table, last, batch[..n], ignoreExisting).failed.Some?
    ensures InsertAll(table, last, batch, ignoreExisting) == InsertAll(table, last, batch[..n], ignoreExisting)
    decreases |batch| - n
  {
    if n < |batch| {
      assert batch[..n + 1][..n] == batch[..n];
      InsertAllStops(table, last, batch, n + 1, ignoreExisting);
    } else {
      assert batch[..n] == batch;
    }
  }
}
