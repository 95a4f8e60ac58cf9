/**
 * The tag tables both loaders write, as values: the `tagsets` table, the
 * generic `tags` table with its auto-increment id, the per-type value tables,
 * and the queries and id arithmetic the loaders run against them.
 */
module Tables {
  import opened Outcomes
  import opened TagTypes

  /** A tag value. Values are compared as the loader receives them; see README for coercion. */
  type TagValue = string

  /** A row of `tagsets`, keyed by its unique name. */
  datatype TagsetRow = TagsetRow(id: int, tagtypeId: int)

  /** A row of the generic `tags` table, keyed by its auto-increment id. */
  datatype TagRow = TagRow(tagsetId: int, tagtypeId: int)

  /** A row of a type-specific table such as `alphanumerical_tags`: `(id, value, tagset_id)`. */
  datatype TypedRow = TypedRow(id: int, value: TagValue, tagsetId: int)

  /** Every id of the generic table is positive and at most the auto-increment high-water mark. */
  ghost predicate IdsUpTo(tags: map<int, TagRow>, last: int) {
    forall id :: id in tags ==> 1 <= id <= last
  }

  /** The table a tagset's tags go to: `<lower-cased type name>_tags`, or none when the type id is unknown. */
  function TableFor(tagtypeId: int): Option<string> {
    match NameByValue(tagtypeId)
    case Ok(name) => Some(TableName(name))
    case Err(_) => None
  }

  /** The schema has one value table per tag type. */
  ghost predicate TablesExist(typed: map<string, seq<TypedRow>>) {
    forall t: TagType :: TableName(Name(t)) in typed
  }

  /** A typed row of `table` is backed by the generic row with its id, of the same tagset and of the type stored in `table`. */
  ghost predicate Backed(tags: map<int, TagRow>, table: string, r: TypedRow) {
    r.id in tags && tags[r.id].tagsetId == r.tagsetId && TableFor(tags[r.id].tagtypeId) == Some(table)
  }

  /** No typed row refers to a generic row that does not exist or disagrees with it. */
  ghost predicate Coupled(tags: map<int, TagRow>, typed: map<string, seq<TypedRow>>) {
    forall table, i :: table in typed && 0 <= i < |typed[table]| ==> Backed(tags, table, typed[table][i])
  }

  /** Each table of `before` is a prefix of the same table in `after`: rows are only appended. */
  ghost predicate AppendOnly(before: map<string, seq<TypedRow>>, after: map<string, seq<TypedRow>>) {
    forall table :: table in before ==> table in after && before[table] <= after[table]
  }

  /** Two append-only steps make one. */
  lemma AppendOnlyTransitive(a: map<string, seq<TypedRow>>, b: map<string, seq<TypedRow>>, c: map<string, seq<TypedRow>>)
    requires AppendOnly(a, b) && AppendOnly(b, c)
    ensures AppendOnly(a, c)
  {
    forall table | table in a ensures table in c && a[table] <= c[table] {
      assert a[table] == b[table][..|a[table]|];
      assert b[table] == c[table][..|b[table]|];
    }
  }

  /** `list(range(last - n + 1, last + 1))`: the ids derived from the last id of a batch of n rows. */
  function IdRange(last: int, n: nat): seq<int> {
    seq(n, k requires 0 <= k < n => last - n + 1 + k)
  }

  /** The rows a batch of n single-row inserts adds to the generic table after id `after`: ids `after + 1` to `after + n`. */
  function Block(after: int, n: nat, row: TagRow): (m: map<int, TagRow>)
    ensures forall id :: id in m <==> after < id <= after + n
    ensures forall id :: id in m ==> m[id] == row
  {
    if n == 0 then map[] else Block(after, n - 1, row)[after + n := row]
  }

  /**
   * The derived ids are n ascending ids ending at `last`, and they are exactly
   * the ids that a batch of n inserts ending at `last` was assigned.
   */
  lemma IdRangeIsTheInsertedBlock(last: int, n: nat, row: TagRow)
    ensures |IdRange(last, n)| == n
    ensures n > 0 ==> IdRange(last, n)[0] == last - n + 1 && IdRange(last, n)[n - 1] == last
    ensures forall j, k :: 0 <= j < k < n ==> IdRange(last, n)[j] < IdRange(last, n)[k]
    ensures forall id :: id in IdRange(last, n) <==> id in Block(last - n, n, row)
  {
    forall id | id in Block(last - n, n, row) ensures id in IdRange(last, n) {
      assert IdRange(last, n)[id - (last - n + 1)] == id;
    }
  }

  /** `zip(tag_ids, values)` turned into typed rows of one tagset: position k pairs `ids[k]` with `values[k]`. */
  function TypedRows(ids: seq<int>, values: seq<TagValue>, tagsetId: int): (rows: seq<TypedRow>)
    ensures |rows| == if |ids| <= |values| then |ids| else |values|
    ensures forall k :: 0 <= k < |rows| ==> rows[k] == TypedRow(ids[k], values[k], tagsetId)
  {
    var n := if |ids| <= |values| then |ids| else |values|;
    seq(n, k requires 0 <= k < n => TypedRow(ids[k], values[k], tagsetId))
  }

  /**
   * The typed rows of a batch of n values, zipped with the ids derived after
   * the batch's n generic inserts: one row per value, in batch order, each
   * value under its own id, every id one of the block just inserted (so a
   * generic row with the batch's tagset and type backs it), and no id used twice.
   */
  lemma ZipOfInsertedBlock(after: int, values: seq<TagValue>, tagsetId: int, row: TagRow)
    ensures var n := |values|;
            var rows := TypedRows(IdRange(after + n, n), values, tagsetId);
            && |rows| == n
            && (forall k :: 0 <= k < n ==> rows[k].value == values[k] && rows[k].tagsetId == tagsetId)
            && (forall k :: 0 <= k < n ==> rows[k].id in Block(after, n, row) && Block(after, n, row)[rows[k].id] == row)
            && (forall j, k :: 0 <= j < k < n ==> rows[j].id < rows[k].id)
            && (forall id :: id in Block(after, n, row) ==> exists k :: 0 <= k < n && rows[k].id == id)
  {
    var n := |values|;
    var rows := TypedRows(IdRange(after + n, n), values, tagsetId);
    IdRangeIsTheInsertedBlock(after + n, n, row);
    forall k | 0 <= k < n ensures rows[k].id in Block(after, n, row) {
      assert rows[k].id == IdRange(after + n, n)[k];
    }
    forall id | id in Block(after, n, row) ensures exists k :: 0 <= k < n && rows[k].id == id {
      assert rows[id - after - 1].id == id;
    }
  }

  predicate Matches(r: TypedRow, tagsetId: int, v: TagValue) {
    r.tagsetId == tagsetId && r.value == v
  }

  /**
   * The id of the last row of `rows` holding `v` under `tagsetId`, if any.
   * This is the per-value reference for the resolver's join.
   */
  function LastMatch(rows: seq<TypedRow>, tagsetId: int, v: TagValue): (r: Option<int>)
    ensures r.Some? <==> exists i :: 0 <= i < |rows| && Matches(rows[i], tagsetId, v)
  {
    if rows == [] then None
    else if Matches(rows[|rows| - 1], tagsetId, v) then Some(rows[|rows| - 1].id)
    else
      var r := LastMatch(rows[..|rows| - 1], tagsetId, v);
      assert forall i :: 0 <= i < |rows| - 1 ==> rows[i] == rows[..|rows| - 1][i];
      r
  }

  /** The id found is that of a row holding the value under the tagset, and no later row holds it. */
  lemma {:induction false} LastMatchIsLastRow(rows: seq<TypedRow>, tagsetId: int, v: TagValue)
    requires LastMatch(rows, tagsetId, v).Some?
    ensures exists i :: 0 <= i < |rows| && rows[i] == TypedRow(LastMatch(rows, tagsetId, v).value, v, tagsetId)
                        && forall j :: i < j < |rows| ==> !Matches(rows[j], tagsetId, v)
  {
    var n := |rows| - 1;
    if Matches(rows[n], tagsetId, v) {
      assert rows[n] == TypedRow(rows[n].id, v, tagsetId);
    } else {
      var init := rows[..n];
      LastMatchIsLastRow(init, tagsetId, v);
      var i :| 0 <= i < |init| && init[i] == TypedRow(LastMatch(init, tagsetId, v).value, v, tagsetId)
               && forall j :: i < j < |init| ==> !Matches(init[j], tagsetId, v);
      assert rows[i] == init[i];
      assert forall j :: i < j < n ==> rows[j] == init[j];
    }
  }

  /**
   * The id of the first row of `rows` holding `v` under `tagsetId`, if any:
   * what `fetchone()` returns from a scan of the table in row order.
   */
  function FirstMatch(rows: seq<TypedRow>, tagsetId: int, v: TagValue): (r: Option<int>)
    ensures r.Some? <==> exists i :: 0 <= i < |rows| && Matches(rows[i], tagsetId, v)
    ensures r.Some? ==> exists i :: 0 <= i < |rows| && rows[i] == TypedRow(r.value, v, tagsetId)
                                    && forall j :: 0 <= j < i ==> !Matches(rows[j], tagsetId, v)
  {
    if rows == [] then None
    else if Matches(rows[0], tagsetId, v) then Some(rows[0].id)
    else
      var r := FirstMatch(rows[1..], tagsetId, v);
      assert forall i :: 1 <= i < |rows| ==> rows[i] == rows[1..][i - 1];
      r
  }

  /**
   * The join of a typed table with the staged values, filtered by tagset,
   * collected into a dictionary from value to id: rows are visited in order,
   * so a later row holding the same value overrides an earlier one.
   * Each staged value that occurs is mapped to the id its own lookup finds.
   */
  function MatchRows(rows: seq<TypedRow>, tagsetId: int, staged: set<TagValue>): (m: map<TagValue, int>)
    ensures forall v :: v in m <==> v in staged && LastMatch(rows, tagsetId, v).Some?
    ensures forall v :: v in m ==> m[v] == LastMatch(rows, tagsetId, v).value
  {
    if rows == [] then map[]
    else
      var m := MatchRows(rows[..|rows| - 1], tagsetId, staged);
      var last := rows[|rows| - 1];
      if last.tagsetId == tagsetId && last.value in staged then m[last.value := last.id] else m
  }

  /** Appending rows to a table never makes a value that was found unfindable. */
  lemma LastMatchKeptByAppend(rows: seq<TypedRow>, more: seq<TypedRow>, tagsetId: int, v: TagValue)
    requires LastMatch(rows, tagsetId, v).Some?
    ensures LastMatch(rows + more, tagsetId, v).Some?
  {
    var i :| 0 <= i < |rows| && Matches(rows[i], tagsetId, v);
    assert (rows + more)[i] == rows[i];
  }

  /** A value that an appended row holds under the tagset is found afterwards. */
  lemma LastMatchFindsAppended(rows: seq<TypedRow>, more: seq<TypedRow>, k: nat, tagsetId: int, v: TagValue)
    requires k < |more| && Matches(more[k], tagsetId, v)
    ensures LastMatch(rows + more, tagsetId, v).Some?
  {
    assert (rows + more)[|rows| + k] == more[k];
  }

  /** Appending rows never changes the first row holding a value that was already there. */
  lemma {:induction false} FirstMatchKeptByAppend(rows: seq<TypedRow>, more: seq<TypedRow>, tagsetId: int, v: TagValue)
    requires FirstMatch(rows, tagsetId, v).Some?
    ensures FirstMatch(rows + more, tagsetId, v) == FirstMatch(rows, tagsetId, v)
  {
    assert (rows + more)[0] == rows[0];
    if !Matches(rows[0], tagsetId, v) {
      assert (rows + more)[1..] == rows[1..] + more;
      FirstMatchKeptByAppend(rows[1..], more, tagsetId, v);
    }
  }

  /** A value that an appended row holds under the tagset is found by the first-row scan afterwards. */
  lemma FirstMatchFindsAppended(rows: seq<TypedRow>, more: seq<TypedRow>, k: nat, tagsetId: int, v: TagValue)
    requires k < |more| && Matches(more[k], tagsetId, v)
    ensures FirstMatch(rows + more, tagsetId, v).Some?
  {
    assert (rows + more)[|rows| + k] == more[k];
  }

  /** A table name found for a type id is the table of one of the seven tag types. */
  lemma TableForIsATypeTable(tagtypeId: int)
    requires TableFor(tagtypeId).Some?
    ensures exists t: TagType :: TableFor(tagtypeId).value == TableName(Name(t))
  {
    FindNameFindsFirst(Members, tagtypeId);
    var i :| 0 <= i < |Members| && Value(Members[i]) == tagtypeId && NameByValue(tagtypeId).value == Name(Members[i]);
    assert TableFor(tagtypeId).value == TableName(Name(Members[i]));
  }

  /**
   * Appending a batch of n generic rows after id `after` and the matching typed
   * rows (ids derived from the new high-water mark, values paired by position)
   * keeps every typed row backed by a generic row of the same tagset and type.
   */
  lemma CoupledAfterBatch(tags: map<int, TagRow>, typed: map<string, seq<TypedRow>>, after: int,
                          newValues: seq<TagValue>, tagsetId: int, tagtypeId: int, table: string)
    requires Coupled(tags, typed) && IdsUpTo(tags, after)
    requires table in typed && TableFor(tagtypeId) == Some(table)
    ensures var n := |newValues|;
            Coupled(tags + Block(after, n, TagRow(tagsetId, tagtypeId)),
                    typed[table := typed[table] + TypedRows(IdRange(after + n, n), newValues, tagsetId)])
  {
    var n := |newValues|;
    var row := TagRow(tagsetId, tagtypeId);
    var tags' := tags + Block(after, n, row);
    var added := TypedRows(IdRange(after + n, n), newValues, tagsetId);
    var typed' := typed[table := typed[table] + added];
    forall tb, i | tb in typed' && 0 <= i < |typed'[tb]| ensures Backed(tags', tb, typed'[tb][i]) {
      if tb == table && i >= |typed[table]| {
        var k := i - |typed[table]|;
        assert typed'[tb][i] == added[k];
        assert added[k].id == after + 1 + k;
      } else {
        assert typed'[tb][i] == typed[tb][i];
        var id := typed[tb][i].id;
        assert id in tags && id !in Block(after, n, row);
      }
    }
  }
}
