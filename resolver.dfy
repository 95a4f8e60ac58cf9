/**
 * The tag resolver of the SQLite loader, `get_tag_id_map_for_tagset_values`:
 * given a tagset name and some values, the ids of the tags of that tagset
 * holding those values. The per-value lookup `TagIdOf` is its reference.
 */
module TagResolver {
  import opened Outcomes
  import opened Tables

  /** The tagset exists and its type id names one of the type tables. */
  predicate Known(tagsets: map<string, TagsetRow>, name: string) {
    name in tagsets && TableFor(tagsets[name].tagtypeId).Some?
  }

  /** The resolver's exception path: a known tagset whose type id is unknown or whose table is missing. */
  predicate ResolverFails(tagsets: map<string, TagsetRow>, typed: map<string, seq<TypedRow>>, name: string) {
    name in tagsets && (TableFor(tagsets[name].tagtypeId).None? || TableFor(tagsets[name].tagtypeId).value !in typed)
  }

  /** The id that one value resolves to under a tagset: the last row of the tagset's table holding it. */
  function TagIdOf(tagsets: map<string, TagsetRow>, typed: map<string, seq<TypedRow>>, name: string, v: TagValue): Option<int> {
    if !Known(tagsets, name) || TableFor(tagsets[name].tagtypeId).value !in typed then None
    else LastMatch(typed[TableFor(tagsets[name].tagtypeId).value], tagsets[name].id, v)
  }

  /**
   * `get_tag_id_map_for_tagset_values`: an unknown tagset gives `{}`; otherwise
   * the values are staged as a set (the temporary table with its primary key)
   * and joined with the tagset's type table. None is the exception path.
   * The answer for each value is the same as resolving that value alone.
   */
  function ResolveTagIds(tagsets: map<string, TagsetRow>, typed: map<string, seq<TypedRow>>, name: string, values: seq<TagValue>)
    : (r: Option<map<(string, TagValue), int>>)
    ensures r.None? <==> ResolverFails(tagsets, typed, name)
    ensures name !in tagsets ==> r == Some(map[])
    ensures r.Some? ==> forall key :: key in r.value <==>
              key.0 == name && key.1 in values && TagIdOf(tagsets, typed, name, key.1).Some?
    ensures r.Some? ==> forall key :: key in r.value ==> r.value[key] == TagIdOf(tagsets, typed, name, key.1).value
  {
    if name !in tagsets then Some(map[])
    else
      var row := tagsets[name];
      match TableFor(row.tagtypeId)
      case None => None
      case Some(table) =>
        if table !in typed then None
        else Some(KeyedMatches(typed[table], row.id, name, values))
  }

  /**
   * The join of the staged values (a set: the temporary table's primary key)
   * with a type table, keyed by `(tagset name, value)`; a dictionary built
   * from the joined rows in table order keeps the last row for each value.
   */
  function KeyedMatches(rows: seq<TypedRow>, tagsetId: int, name: string, values: seq<TagValue>): (r: map<(string, TagValue), int>)
    ensures forall key :: key in r <==> key.0 == name && key.1 in values && LastMatch(rows, tagsetId, key.1).Some?
    ensures forall key :: key in r ==> r[key] == LastMatch(rows, tagsetId, key.1).value
  {
    var staged := set v | v in values;
    var found := MatchRows(rows, tagsetId, staged);
    map v | v in found.Keys :: (name, v) := found[v]
  }

  /** With the schema in place the resolver raises exactly for a tagset whose type id names no table. */
  lemma ResolverAnswersUnderSchema(tagsets: map<string, TagsetRow>, typed: map<string, seq<TypedRow>>, name: string)
    requires TablesExist(typed)
    ensures ResolverFails(tagsets, typed, name) <==> name in tagsets && !Known(tagsets, name)
  {
    if Known(tagsets, name) {
      TableForIsATypeTable(tagsets[name].tagtypeId);
    }
  }

  /** Appending rows to the type tables keeps every value that resolved resolving. */
  lemma ResolutionKeptByAppend(tagsets: map<string, TagsetRow>, before: map<string, seq<TypedRow>>,
                               after: map<string, seq<TypedRow>>, name: string, v: TagValue)
    requires AppendOnly(before, after)
    requires TagIdOf(tagsets, before, name, v).Some?
    ensures TagIdOf(tagsets, after, name, v).Some?
  {
    var table := TableFor(tagsets[name].tagtypeId).value;
    LastMatchKeptByAppend(before[table], after[table][|before[table]|..], tagsets[name].id, v);
    assert before[table] + after[table][|before[table]|..] == after[table];
  }

  /**
   * With every typed row backed by a generic row, an id the resolver finds is
   * a generic tag of that tagset, so it is positive and `if tag_id:` never
   * drops it.
   */
  lemma ResolvedIdIsATag(tags: map<int, TagRow>, last: int, tagsets: map<string, TagsetRow>,
                         typed: map<string, seq<TypedRow>>, name: string, v: TagValue)
    requires Coupled(tags, typed) && IdsUpTo(tags, last)
    requires TagIdOf(tagsets, typed, name, v).Some?
    ensures var id := TagIdOf(tagsets, typed, name, v).value;
            id in tags && tags[id].tagsetId == tagsets[name].id && 1 <= id
  {
    var table := TableFor(tagsets[name].tagtypeId).value;
    var id := TagIdOf(tagsets, typed, name, v).value;
    LastMatchIsLastRow(typed[table], tagsets[name].id, v);
    var i :| 0 <= i < |typed[table]| && typed[table][i] == TypedRow(id, v, tagsets[name].id)
             && forall j :: i < j < |typed[table]| ==> !Matches(typed[table][j], tagsets[name].id, v);
    assert Backed(tags, table, typed[table][i]);
  }
}
