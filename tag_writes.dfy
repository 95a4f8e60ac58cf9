/**
 * The write phase of `add_tags` that both loaders share: a batch of generic
 * rows, the id range read back from the last of them, and the typed rows
 * pairing those ids with the values. The rows are built in local variables
 * and handed back, so a caller that hits an error keeps its tables as they
 * were (the transaction is rolled back).
 */
module TagWrites {
  import opened Outcomes
  import opened Tables

  /** `executemany` of `INSERT INTO tags`: n generic rows, each taking the next auto-increment id. */
  method InsertGeneric(tags: map<int, TagRow>, last: int, n: nat, row: TagRow) returns (tags': map<int, TagRow>, last': int)
    ensures last' == last + n
    ensures tags' == tags + Block(last, n, row)
  {
    tags', last' := tags, last;
    var i := 0;
    while i < n
      invariant 0 <= i <= n
      invariant last' == last + i
      invariant tags' == tags + Block(last, i, row)
    {
      last' := last' + 1;
      tags' := tags'[last' := row];
      i := i + 1;
    }
  }

  /** `executemany` of `INSERT INTO <type>_tags (id, value, tagset_id)` over `zip(ids, values)`. */
  method InsertTyped(rows: seq<TypedRow>, ids: seq<int>, values: seq<TagValue>, tagsetId: int) returns (rows': seq<TypedRow>)
    ensures rows' == rows + TypedRows(ids, values, tagsetId)
  {
    var n := if |ids| <= |values| then |ids| else |values|;
    rows' := rows;
    var j := 0;
    assert rows + TypedRows(ids[..0], values[..0], tagsetId) == rows;
    while j < n
      invariant 0 <= j <= n
      invariant rows' == rows + TypedRows(ids[..j], values[..j], tagsetId)
    {
      ghost var done := TypedRows(ids[..j], values[..j], tagsetId);
      assert TypedRows(ids[..j + 1], values[..j + 1], tagsetId) == done + [TypedRow(ids[j], values[j], tagsetId)];
      assert rows + done + [TypedRow(ids[j], values[j], tagsetId)] == rows + (done + [TypedRow(ids[j], values[j], tagsetId)]);
      rows' := rows' + [TypedRow(ids[j], values[j], tagsetId)];
      j := j + 1;
    }
    assert TypedRows(ids[..n], values[..n], tagsetId) == TypedRows(ids, values, tagsetId);
  }

  /**
   * What a committed batch of `values` under tagset `row` leaves: n = |values|
   * generic rows with the n ids after the old high-water mark, and the
   * tagset's type table grown by the typed rows pairing the ids
   * `[last' - n + 1 .. last']` with the values, position by position.
   */
  ghost predicate BatchWritten(tags: map<int, TagRow>, last: int, typed: map<string, seq<TypedRow>>, row: TagsetRow,
                               values: seq<TagValue>, tags': map<int, TagRow>, last': int, typed': map<string, seq<TypedRow>>)
  {
    var n := |values|;
    && TableFor(row.tagtypeId).Some?
    && var table := TableFor(row.tagtypeId).value;
    && last' == last + n
    && tags' == tags + Block(last, n, TagRow(row.id, row.tagtypeId))
    && table in typed
    && typed' == typed[table := typed[table] + TypedRows(IdRange(last', n), values, row.id)]
  }

  /**
   * One `add_tags` batch after the tagset was found: insert a generic row
   * per value, read back the last id, derive the id range, and insert the
   * typed rows. An empty batch (no last row, so the first derived id does not
   * exist) or an unknown type id (ValueError) is an error, and the tables come
   * back unchanged. Otherwise the ids are the n ids after the old high-water
   * mark, in order, and every typed row stays backed by a generic row.
   */
  method WriteBatch(tags: map<int, TagRow>, last: int, typed: map<string, seq<TypedRow>>,
                    name: string, row: TagsetRow, values: seq<TagValue>)
    returns (tags': map<int, TagRow>, last': int, typed': map<string, seq<TypedRow>>, error: Option<Error>)
    requires TablesExist(typed) && Coupled(tags, typed) && IdsUpTo(tags, last) && 0 <= last
    ensures error.None? <==> |values| > 0 && TableFor(row.tagtypeId).Some?
    ensures error.Some? ==> error == Some(NoNewTags(name)) || error == Some(UnknownTagType(row.tagtypeId))
    ensures error.Some? ==> tags' == tags && last' == last && typed' == typed
    ensures error.None? ==> BatchWritten(tags, last, typed, row, values, tags', last', typed')
    ensures TablesExist(typed') && Coupled(tags', typed') && IdsUpTo(tags', last') && last <= last'
  {
    var n := |values|;
    var pendingTags, pendingLast := InsertGeneric(tags, last, n, TagRow(row.id, row.tagtypeId));
    var ids := IdRange(pendingLast, n);
    if n == 0 {
      return tags, last, typed, Some(NoNewTags(name));
    }
    var table := TableFor(row.tagtypeId);
    if table.None? {
      return tags, last, typed, Some(UnknownTagType(row.tagtypeId));
    }
    TableForIsATypeTable(row.tagtypeId);
    var rows := InsertTyped(typed[table.value], ids, values, row.id);
    CoupledAfterBatch(tags, typed, last, values, row.id, row.tagtypeId, table.value);
    tags', last', typed', error := pendingTags, pendingLast, typed[table.value := rows], None;
  }
}
