/**
 * The `medias` table of the SQLite loader and the writes `add_medias` makes
 * for one group inside its transaction: the leader's row, the `group_id`
 * updates of members already written, and the insert of the other members.
 * The rows are kept in values here; the loader commits or discards them.
 */
module MediaTable {
  import opened Outcomes
  import opened MediaGrouping

  /** A row of `medias`, keyed by its unique source. */
  datatype MediaRow = MediaRow(id: int, sourceType: int, thumbnail: Option<string>, groupId: Option<int>)

  /** The row that inserting `mo` with this id and group id writes. */
  function RowFor(mo: MediaObject, id: int, groupId: Option<int>): MediaRow {
    MediaRow(id, SourceTypeValue(mo.sourceType), mo.thumbnail, groupId)
  }

  /** The auto-increment ids: each in [1, last], no two rows sharing one. */
  ghost predicate IdsValid(rows: map<string, MediaRow>, last: int) {
    && 0 <= last
    && (forall s :: s in rows ==> 1 <= rows[s].id <= last)
    && (forall s, t :: s in rows && t in rows && s != t ==> rows[s].id != rows[t].id)
  }

  /** Every earlier row is still there with the id, source type and thumbnail it was inserted with. */
  ghost predicate RowsKept(before: map<string, MediaRow>, after: map<string, MediaRow>) {
    forall s :: s in before ==>
      s in after && after[s].id == before[s].id && after[s].sourceType == before[s].sourceType && after[s].thumbnail == before[s].thumbnail
  }

  /** Some object of `objs` has source `s`. */
  ghost predicate SourceOf(objs: seq<MediaObject>, s: string) {
    exists mo :: mo in objs && mo.source == s
  }

  /** A row written for source `s` carries the source type and thumbnail of some object of `objs` with that source. */
  ghost predicate WrittenFrom(objs: seq<MediaObject>, s: string, row: MediaRow) {
    exists mo :: mo in objs && mo.source == s && row.sourceType == SourceTypeValue(mo.sourceType) && row.thumbnail == mo.thumbnail
  }

  /** An insert without `OR IGNORE` raises: some source is already present or repeats an earlier one. */
  ghost predicate SourceCollision(existing: set<string>, batch: seq<MediaObject>) {
    exists i :: 0 <= i < |batch| && (batch[i].source in existing || exists j :: 0 <= j < i && batch[j].source == batch[i].source)
  }

  /**
   * The leader's row is present with id `groupId`; it is new, with no group
   * and the next id, exactly when its source was not present; nothing else changes.
   */
  ghost predicate LeaderWritten(rows: map<string, MediaRow>, last: int, leader: MediaObject,
                                rows': map<string, MediaRow>, last': int, groupId: int)
  {
    && IdsValid(rows', last') && last <= last'
    && leader.source in rows' && rows'[leader.source].id == groupId
    && (forall s :: s in rows ==> s in rows' && rows'[s] == rows[s])
    && rows'.Keys == rows.Keys + {leader.source}
    && (leader.source !in rows ==> rows'[leader.source] == RowFor(leader, groupId, None) && last < groupId)
  }

  /**
   * Only `group_id`s change: to `groupId` for the members already added, and
   * the members not yet added are the ones collected for the insert.
   */
  ghost predicate GroupIdsSet(rows: map<string, MediaRow>, members: seq<MediaObject>, added: set<string>, groupId: int,
                              rows': map<string, MediaRow>, pending: seq<MediaObject>)
  {
    && rows'.Keys == rows.Keys
    && (forall s :: s in rows ==> rows'[s] == rows[s].(groupId := rows'[s].groupId))
    && (forall s :: s in rows && s in added && SourceOf(members, s) ==> rows'[s].groupId == Some(groupId))
    && (forall s :: s in rows && !(s in added && SourceOf(members, s)) ==> rows'[s].groupId == rows[s].groupId)
    && (forall mo :: mo in pending <==> mo in members && mo.source !in added)
  }

  /**
   * The leader's `INSERT INTO medias ... RETURNING id`; when its source is
   * already present the insert fails and the existing row's id is read back.
   * Either way `groupId` is the id of the leader's row.
   */
  method WriteLeader(rows: map<string, MediaRow>, last: int, leader: MediaObject)
    returns (rows': map<string, MediaRow>, last': int, groupId: int)
    requires IdsValid(rows, last)
    ensures LeaderWritten(rows, last, leader, rows', last', groupId)
  {
    if leader.source in rows {
      rows', last', groupId := rows, last, rows[leader.source].id;
    } else {
      NextIdKeepsIdsValid(rows, last, leader.source, RowFor(leader, last + 1, None));
      last' := last + 1;
      groupId := last';
      rows' := rows[leader.source := RowFor(leader, groupId, None)];
    }
  }

  /**
   * The member loop of one group: a member whose source was already written
   * in this call gets its `group_id` updated to the group's id; the others
   * are collected, in order, for the insert.
   */
  method SetGroupIds(rows: map<string, MediaRow>, members: seq<MediaObject>, added: set<string>, groupId: int)
    returns (rows': map<string, MediaRow>, pending: seq<MediaObject>)
    ensures GroupIdsSet(rows, members, added, groupId, rows', pending)
    ensures DistinctSources(members) ==> DistinctSources(pending)
  {
    rows', pending := rows, [];
    var i := 0;
    while i < |members|
      invariant 0 <= i <= |members|
      invariant rows'.Keys == rows.Keys
      invariant forall s :: s in rows ==> rows'[s] == rows[s].(groupId := rows'[s].groupId)
      invariant forall s :: s in rows && s in added && SourceOf(members[..i], s) ==> rows'[s].groupId == Some(groupId)
      invariant forall s :: s in rows && !(s in added && SourceOf(members[..i], s)) ==> rows'[s].groupId == rows[s].groupId
      invariant forall mo :: mo in pending <==> mo in members[..i] && mo.source !in added
      invariant DistinctSources(members) ==> DistinctSources(pending)
    {
      var mo := members[i];
      assert members[..i + 1] == members[..i] + [mo];
      if mo.source in added {
        if mo.source in rows' {
          rows' := rows'[mo.source := rows'[mo.source].(groupId := Some(groupId))];
        }
      } else {
        if DistinctSources(members) {
          PendingStaysDistinct(members, i, pending);
        }
        pending := pending + [mo];
      }
      i := i + 1;
    }
    assert members[..i] == members;
  }

  /** Collecting the next member of a group with distinct sources keeps the collected members' sources distinct. */
  lemma PendingStaysDistinct(members: seq<MediaObject>, i: nat, pending: seq<MediaObject>)
    requires DistinctSources(members) && i < |members|
    requires DistinctSources(pending) && forall mo :: mo in pending ==> mo in members[..i]
    ensures DistinctSources(pending + [members[i]])
  {
    var r := pending + [members[i]];
    forall a, b | 0 <= a < b < |r| ensures r[a].source != r[b].source {
      if b == |pending| {
        assert r[a] in pending;
        var k :| 0 <= k < i && members[..i][k] == r[a];
        assert members[k] == r[a];
      }
    }
  }

  /** The `medias` table while `executemany` runs, and the source it raised on, if any. */
  datatype MediaInsert = MediaInsert(rows: map<string, MediaRow>, last: int, failed: Option<string>)

  /**
   * `executemany("INSERT [OR IGNORE] INTO medias ...")` for the collected
   * members, each with the group's id and the next row id. With `OR IGNORE`
   * a source already present is skipped; without it the first such source
   * raises and the rest is not inserted.
   */
  function MembersInsert(rows: map<string, MediaRow>, last: int, batch: seq<MediaObject>, groupId: int, ignoreExisting: bool)
    : (r: MediaInsert)
    ensures last <= r.last
    ensures r.failed.Some? ==> !ignoreExisting
    decreases |batch|
  {
    if |batch| == 0 then MediaInsert(rows, last, None)
    else
      var prev := MembersInsert(rows, last, batch[..|batch| - 1], groupId, ignoreExisting);
      var mo := batch[|batch| - 1];
      if prev.failed.Some? then prev
      else if mo.source in prev.rows then
        (if ignoreExisting then prev else MediaInsert(prev.rows, prev.last, Some(mo.source)))
      else MediaInsert(prev.rows[mo.source := RowFor(mo, prev.last + 1, Some(groupId))], prev.last + 1, None)
  }

  /** What inserting the members did: earlier rows untouched, the batch's sources added with fresh ids and the group's id. */
  ghost predicate MembersInserted(rows: map<string, MediaRow>, last: int, batch: seq<MediaObject>, groupId: int,
                                  rows': map<string, MediaRow>, last': int)
  {
    && IdsValid(rows', last') && last <= last'
    && (forall s :: s in rows ==> s in rows' && rows'[s] == rows[s])
    && (forall s :: s in rows' <==> s in rows || SourceOf(batch, s))
    && (forall s :: s in rows' && s !in rows ==>
          last < rows'[s].id && rows'[s].groupId == Some(groupId) && WrittenFrom(batch, s, rows'[s]))
  }

  /** The insert raises exactly when it is not ignoring and some source is present or repeated. */
  lemma {:induction false} MembersInsertFailsOnCollision(rows: map<string, MediaRow>, last: int, batch: seq<MediaObject>,
                                                     groupId: int, ignoreExisting: bool)
    requires IdsValid(rows, last)
    ensures MembersInsert(rows, last, batch, groupId, ignoreExisting).failed.Some? <==>
              !ignoreExisting && SourceCollision(rows.Keys, batch)
    decreases |batch|
  {
    if |batch| > 0 {
      var init := batch[..|batch| - 1];
      var mo := batch[|batch| - 1];
      MembersInsertFailsOnCollision(rows, last, init, groupId, ignoreExisting);
      MembersInsertInserts(rows, last, init, groupId, ignoreExisting);
      assert init + [mo] == batch;
      CollisionOfExtendedBatch(rows.Keys, init, mo);
    }
  }

  /** When the insert does not raise, it leaves the rows `MembersInserted` describes. */
  lemma {:induction false} MembersInsertInserts(rows: map<string, MediaRow>, last: int, batch: seq<MediaObject>,
                                            groupId: int, ignoreExisting: bool)
    requires IdsValid(rows, last)
    ensures var r := MembersInsert(rows, last, batch, groupId, ignoreExisting);
            r.failed.None? ==> MembersInserted(rows, last, batch, groupId, r.rows, r.last)
    decreases |batch|
  {
    if |batch| > 0 {
      var init := batch[..|batch| - 1];
      var mo := batch[|batch| - 1];
      MembersInsertInserts(rows, last, init, groupId, ignoreExisting);
      var prev := MembersInsert(rows, last, init, groupId, ignoreExisting);
      var r := MembersInsert(rows, last, batch, groupId, ignoreExisting);
      assert init + [mo] == batch;
      if prev.failed.None? && r.failed.None? {
        MembersInsertedExtend(rows, last, init, mo, groupId, prev, r);
      }
    }
  }

  /** One more member keeps `MembersInserted`, whether its source was new or already present. */
  lemma MembersInsertedExtend(rows: map<string, MediaRow>, last: int, init: seq<MediaObject>, mo: MediaObject, groupId: int,
                              prev: MediaInsert, r: MediaInsert)
    requires MembersInserted(rows, last, init, groupId, prev.rows, prev.last)
    requires mo.source in prev.rows ==> r == prev
    requires mo.source !in prev.rows ==>
               r.rows == prev.rows[mo.source := RowFor(mo, prev.last + 1, Some(groupId))] && r.last == prev.last + 1
    ensures MembersInserted(rows, last, init + [mo], groupId, r.rows, r.last)
  {
    var batch := init + [mo];
    ObjectsOfAppend(init, mo);
    if mo.source !in prev.rows {
      NextIdKeepsIdsValid(prev.rows, prev.last, mo.source, RowFor(mo, prev.last + 1, Some(groupId)));
      assert WrittenFrom(batch, mo.source, r.rows[mo.source]) by {
        assert mo in batch;
      }
    }
  }

  /** Appending an object adds exactly its source, and keeps every row written from the prefix. */
  lemma ObjectsOfAppend(init: seq<MediaObject>, mo: MediaObject)
    ensures forall s :: SourceOf(init + [mo], s) <==> SourceOf(init, s) || s == mo.source
    ensures forall s, row :: WrittenFrom(init, s, row) ==> WrittenFrom(init + [mo], s, row)
  {
    var batch := init + [mo];
    assert forall o :: o in batch <==> o in init || o == mo;
    forall s | s == mo.source ensures SourceOf(batch, s) {
      assert mo in batch;
    }
  }

  /** The same insert, with the rows kept in local variables until the transaction ends. */
  method InsertMembers(rows: map<string, MediaRow>, last: int, batch: seq<MediaObject>, groupId: int, ignoreExisting: bool)
    returns (rows': map<string, MediaRow>, last': int, failed: Option<string>)
    ensures MediaInsert(rows', last', failed) == MembersInsert(rows, last, batch, groupId, ignoreExisting)
  {
    rows', last', failed := rows, last, None;
    var i := 0;
    while i < |batch|
      invariant 0 <= i <= |batch|
      invariant MediaInsert(rows', last', None) == MembersInsert(rows, last, batch[..i], groupId, ignoreExisting)
    {
      var mo := batch[i];
      assert batch[..i + 1][..i] == batch[..i];
      if mo.source in rows' {
        if !ignoreExisting {
          MembersInsertStops(rows, last, batch, i + 1, groupId, ignoreExisting);
          return rows', last', Some(mo.source);
        }
      } else {
        last' := last' + 1;
        rows' := rows'[mo.source := RowFor(mo, last', Some(groupId))];
      }
      i := i + 1;
    }
    assert batch[..i] == batch;
  }

  /** Once the insert has raised, the rest of the batch changes nothing. */
  lemma {:induction false} MembersInsertStops(rows: map<string, MediaRow>, last: int, batch: seq<MediaObject>, n: nat,
                                          groupId: int, ignoreExisting: bool)
    requires n <= |batch|
    requires MembersInsert(rows, last, batch[..n], groupId, ignoreExisting).failed.Some?
    ensures MembersInsert(rows, last, batch, groupId, ignoreExisting) == MembersInsert(rows, last, batch[..n], groupId, ignoreExisting)
    decreases |batch| - n
  {
    if n < |batch| {
      assert batch[..n + 1][..n] == batch[..n];
      MembersInsertStops(rows, last, batch, n + 1, groupId, ignoreExisting);
    } else {
      assert batch[..n] == batch;
    }
  }

  /**
   * What one group's writes did: the leader's row and every member's row are
   * present, earlier rows keep what they were inserted with, only members'
   * `group_id`s change, new rows come from the leader or a member, and, unless
   * existing sources are ignored, every member points at the leader's id.
   */
  ghost predicate GroupWritten(rows: map<string, MediaRow>, last: int, leader: MediaObject, members: seq<MediaObject>,
                               added: set<string>, ignoreExisting: bool,
                               rows': map<string, MediaRow>, last': int, added': set<string>)
  {
    && IdsValid(rows', last') && last <= last'
    && (forall s :: s in added' <==> s in added || s == leader.source || SourceOf(members, s))
    && (forall s :: s in rows' <==> s in rows || s == leader.source || SourceOf(members, s))
    && RowsKept(rows, rows')
    && (forall s :: s in rows && !SourceOf(members, s) ==> rows'[s].groupId == rows[s].groupId)
    && (forall s :: s in rows' && s !in rows ==> last < rows'[s].id && WrittenFrom([leader] + members, s, rows'[s]))
    && (!ignoreExisting ==> forall mo :: mo in members ==> rows'[mo.source].groupId == Some(rows'[leader.source].id))
  }

  /** Every member not yet added, other than the leader, has no row yet. */
  ghost predicate FreshMembers(rows: map<string, MediaRow>, leader: MediaObject, members: seq<MediaObject>, added: set<string>) {
    forall mo :: mo in members && mo.source !in added && mo.source != leader.source ==> mo.source !in rows
  }

  /**
   * The members collected for the insert are the ones not yet added and not
   * the leader; when those have no row and the group's sources are distinct,
   * the insert meets neither an existing source nor a repeated one.
   */
  lemma NoCollisionForFreshMembers(rows: map<string, MediaRow>, leader: MediaObject, members: seq<MediaObject>,
                                   added: set<string>, rows2: map<string, MediaRow>, pending: seq<MediaObject>)
    requires FreshMembers(rows, leader, members, added) && DistinctSources(pending)
    requires rows2.Keys == rows.Keys + {leader.source}
    requires forall mo :: mo in pending <==> mo in members && mo.source !in added + {leader.source}
    ensures !SourceCollision(rows2.Keys, pending)
  {
    forall i | 0 <= i < |pending| ensures pending[i].source !in rows2.Keys {
      assert pending[i] in pending;
    }
  }

  /**
   * One iteration of the leader loop of `add_medias`, up to its commit: the
   * leader's row, the `group_id` updates, the member insert, and the sources
   * marked as added. `failed` is the member source the insert raised on.
   */
  method WriteGroup(rows: map<string, MediaRow>, last: int, leader: MediaObject, members: seq<MediaObject>,
                    added: set<string>, ignoreExisting: bool)
    returns (rows': map<string, MediaRow>, last': int, added': set<string>, failed: Option<string>)
    requires IdsValid(rows, last) && added <= rows.Keys
    ensures failed.Some? ==> !ignoreExisting
    ensures !ignoreExisting && DistinctSources(members) && FreshMembers(rows, leader, members, added) ==> failed.None?
    ensures failed.None? ==> GroupWritten(rows, last, leader, members, added, ignoreExisting, rows', last', added')
  {
    var rows1, last1, groupId := WriteLeader(rows, last, leader);
    var added1 := added + {leader.source};
    var rows2, pending := SetGroupIds(rows1, members, added1, groupId);
    rows', last', failed := InsertMembers(rows2, last1, pending, groupId, ignoreExisting);
    added' := added1 + set mo | mo in pending :: mo.source;
    assert IdsValid(rows2, last1);
    MembersInsertFailsOnCollision(rows2, last1, pending, groupId, ignoreExisting);
    if DistinctSources(members) && FreshMembers(rows, leader, members, added) {
      NoCollisionForFreshMembers(rows, leader, members, added, rows2, pending);
    }
    if failed.None? {
      MembersInsertInserts(rows2, last1, pending, groupId, ignoreExisting);
      GroupKeys(rows, leader, members, added, rows1, rows2, pending, rows', added');
      GroupRows(rows, last, leader, members, added1, groupId, rows1, last1, rows2, pending, rows', last');
      if !ignoreExisting {
        GroupLinks(leader, members, added1, groupId, rows1, rows2, pending, rows', last1, last');
      }
    }
  }

  /** The sources marked as added, and the sources present, after one group. */
  lemma GroupKeys(rows: map<string, MediaRow>, leader: MediaObject, members: seq<MediaObject>, added: set<string>,
                  rows1: map<string, MediaRow>, rows2: map<string, MediaRow>, pending: seq<MediaObject>,
                  rows3: map<string, MediaRow>, added3: set<string>)
    requires rows1.Keys == rows.Keys + {leader.source} && rows2.Keys == rows1.Keys && added <= rows.Keys
    requires forall mo :: mo in pending <==> mo in members && mo.source !in added + {leader.source}
    requires forall s :: s in rows3 <==> s in rows2 || SourceOf(pending, s)
    requires added3 == added + {leader.source} + set mo | mo in pending :: mo.source
    ensures forall s :: s in added3 <==> s in added || s == leader.source || SourceOf(members, s)
    ensures forall s :: s in rows3 <==> s in rows || s == leader.source || SourceOf(members, s)
  {
    forall s | SourceOf(members, s) && s !in added + {leader.source} ensures SourceOf(pending, s) {
      var mo :| mo in members && mo.source == s;
      assert mo in pending;
    }
    forall s | SourceOf(pending, s) ensures SourceOf(members, s) {
      var mo :| mo in pending && mo.source == s;
    }
  }

  /** Earlier rows keep id, type and thumbnail; only members' group ids change; new rows come from the group. */
  lemma GroupRows(rows: map<string, MediaRow>, last: int, leader: MediaObject, members: seq<MediaObject>, added1: set<string>,
                  groupId: int, rows1: map<string, MediaRow>, last1: int, rows2: map<string, MediaRow>, pending: seq<MediaObject>,
                  rows3: map<string, MediaRow>, last3: int)
    requires LeaderWritten(rows, last, leader, rows1, last1, groupId)
    requires GroupIdsSet(rows1, members, added1, groupId, rows2, pending)
    requires MembersInserted(rows2, last1, pending, groupId, rows3, last3)
    ensures IdsValid(rows3, last3) && last <= last3
    ensures RowsKept(rows, rows3)
    ensures forall s :: s in rows && !SourceOf(members, s) ==> rows3[s].groupId == rows[s].groupId
    ensures forall s :: s in rows3 && s !in rows ==> last < rows3[s].id && WrittenFrom([leader] + members, s, rows3[s])
  {
    forall s | s in rows3 && s !in rows ensures last < rows3[s].id && WrittenFrom([leader] + members, s, rows3[s]) {
      if s in rows2 {
        assert s == leader.source;
        assert leader in [leader] + members;
      } else {
        var mo :| mo in pending && mo.source == s && rows3[s].sourceType == SourceTypeValue(mo.sourceType)
                  && rows3[s].thumbnail == mo.thumbnail;
        assert mo in [leader] + members;
      }
    }
  }

  /** Unless existing sources are ignored, every member's row points at the leader's id. */
  lemma GroupLinks(leader: MediaObject, members: seq<MediaObject>, added1: set<string>, groupId: int,
                   rows1: map<string, MediaRow>, rows2: map<string, MediaRow>, pending: seq<MediaObject>,
                   rows3: map<string, MediaRow>, last1: int, last3: int)
    requires leader.source in rows1 && rows1[leader.source].id == groupId && added1 <= rows1.Keys
    requires GroupIdsSet(rows1, members, added1, groupId, rows2, pending)
    requires !SourceCollision(rows2.Keys, pending)
    requires MembersInserted(rows2, last1, pending, groupId, rows3, last3)
    ensures forall mo :: mo in members ==> rows3[mo.source].groupId == Some(rows3[leader.source].id)
  {
    forall mo | mo in members ensures rows3[mo.source].groupId == Some(rows3[leader.source].id) {
      if mo.source !in added1 {
        assert mo in pending;
        NotPresentWithoutCollision(rows2.Keys, pending, mo);
        assert SourceOf(pending, mo.source);
      } else {
        assert SourceOf(members, mo.source);
      }
    }
  }

  /** Without a collision no source of the batch is already present. */
  lemma NotPresentWithoutCollision(existing: set<string>, batch: seq<MediaObject>, mo: MediaObject)
    requires !SourceCollision(existing, batch) && mo in batch
    ensures mo.source !in existing
  {
    var i :| 0 <= i < |batch| && batch[i] == mo;
  }

  /** A batch one object longer collides when its prefix does or when the new source is present or repeated. */
  lemma CollisionOfExtendedBatch(existing: set<string>, init: seq<MediaObject>, mo: MediaObject)
    ensures SourceCollision(existing, init + [mo]) <==>
              SourceCollision(existing, init) || mo.source in existing || SourceOf(init, mo.source)
  {
    var batch := init + [mo];
    assert forall k :: 0 <= k < |init| ==> batch[k] == init[k];
    if mo.source in existing {
      assert batch[|init|] == mo;
    }
    if SourceOf(init, mo.source) {
      var o :| o in init && o.source == mo.source;
      var k :| 0 <= k < |init| && init[k] == o;
      assert batch[k].source == batch[|init|].source;
    }
  }

  /** A new source inserted with the next id keeps the ids valid. */
  lemma NextIdKeepsIdsValid(rows: map<string, MediaRow>, last: int, source: string, row: MediaRow)
    requires IdsValid(rows, last) && source !in rows && row.id == last + 1
    ensures IdsValid(rows[source := row], last + 1)
  {
  }

  /** `s` is a group key or the source of an object with a group: the objects `add_medias` writes. */
  ghost predicate Grouped(objs: seq<MediaObject>, s: string) {
    IsGroupKey(objs, s) || exists mo :: mo in objs && mo.source == s && mo.group.Some?
  }

  /** Each bucket holds its group's members in input order. */
  ghost predicate Bucketed(objs: seq<MediaObject>, buckets: map<string, seq<MediaObject>>) {
    forall g :: g in buckets ==> buckets[g] == GroupMembers(objs, g)
  }

  /** Rows added since `before` have fresh ids and come from objects that have or lead a group. */
  ghost predicate NewRowsFromGroups(objs: seq<MediaObject>, before: map<string, MediaRow>, lastBefore: int,
                                    rows: map<string, MediaRow>)
  {
    forall s :: s in rows && s !in before ==> lastBefore < rows[s].id && WrittenFrom(objs, s, rows[s]) && Grouped(objs, s)
  }

  /** Each finished group's leader and members have rows. */
  ghost predicate GroupsWritten(buckets: map<string, seq<MediaObject>>, done: seq<string>, rows: map<string, MediaRow>) {
    forall g :: g in done && g in buckets ==> g in rows && forall mo :: mo in buckets[g] ==> mo.source in rows
  }

  /** Each finished group's members have rows whose `group_id` is the leader's id. */
  ghost predicate GroupsLinked(buckets: map<string, seq<MediaObject>>, done: seq<string>, rows: map<string, MediaRow>) {
    forall g :: g in done && g in buckets ==>
      g in rows && forall mo :: mo in buckets[g] ==> mo.source in rows && rows[mo.source].groupId == Some(rows[g].id)
  }

  /** Committing one more group keeps the rows kept and the new rows accounted for. */
  lemma GroupCommitted(objs: seq<MediaObject>, buckets: map<string, seq<MediaObject>>, leader: MediaObject,
                       before: map<string, MediaRow>, lastBefore: int, rows: map<string, MediaRow>, last: int,
                       added: set<string>, ignoreExisting: bool, rows': map<string, MediaRow>, last': int, added': set<string>)
    requires Bucketed(objs, buckets) && leader.source in buckets && leader in objs && IsGroupKey(objs, leader.source)
    requires RowsKept(before, rows) && NewRowsFromGroups(objs, before, lastBefore, rows) && lastBefore <= last
    requires GroupWritten(rows, last, leader, buckets[leader.source], added, ignoreExisting, rows', last', added')
    ensures RowsKept(before, rows') && NewRowsFromGroups(objs, before, lastBefore, rows')
  {
    forall s | s in rows' && s !in before
      ensures lastBefore < rows'[s].id && WrittenFrom(objs, s, rows'[s]) && Grouped(objs, s)
    {
      if s in rows {
        assert rows'[s].sourceType == rows[s].sourceType && rows'[s].thumbnail == rows[s].thumbnail;
        KeptRowWrittenFrom(objs, s, rows[s], rows'[s]);
      } else {
        NewRowFromGroup(objs, buckets, leader, s, rows'[s]);
      }
    }
  }

  /** A row whose source type and thumbnail are kept still comes from the same object. */
  lemma KeptRowWrittenFrom(objs: seq<MediaObject>, s: string, row: MediaRow, row': MediaRow)
    requires WrittenFrom(objs, s, row)
    requires row'.sourceType == row.sourceType && row'.thumbnail == row.thumbnail
    ensures WrittenFrom(objs, s, row')
  {
    var mo :| mo in objs && mo.source == s && row.sourceType == SourceTypeValue(mo.sourceType) && row.thumbnail == mo.thumbnail;
  }

  /** A row written from a group's leader or members comes from an object that has or leads a group. */
  lemma NewRowFromGroup(objs: seq<MediaObject>, buckets: map<string, seq<MediaObject>>, leader: MediaObject,
                        s: string, row: MediaRow)
    requires Bucketed(objs, buckets) && leader.source in buckets && leader in objs && IsGroupKey(objs, leader.source)
    requires WrittenFrom([leader] + buckets[leader.source], s, row)
    ensures WrittenFrom(objs, s, row) && Grouped(objs, s)
  {
    var mo :| mo in [leader] + buckets[leader.source] && mo.source == s && row.sourceType == SourceTypeValue(mo.sourceType)
              && row.thumbnail == mo.thumbnail;
    if mo == leader {
      assert IsGroupKey(objs, s);
    } else {
      assert mo in buckets[leader.source];
      assert mo in objs && mo.group.Some?;
    }
  }

  /** Committing one more group adds it to the written ones. */
  lemma GroupWrittenAdds(buckets: map<string, seq<MediaObject>>, done: seq<string>, leader: MediaObject,
                         rows: map<string, MediaRow>, last: int, added: set<string>, ignoreExisting: bool,
                         rows': map<string, MediaRow>, last': int, added': set<string>)
    requires leader.source in buckets && GroupsWritten(buckets, done, rows)
    requires GroupWritten(rows, last, leader, buckets[leader.source], added, ignoreExisting, rows', last', added')
    ensures GroupsWritten(buckets, done + [leader.source], rows')
  {
    var g := leader.source;
    forall mo | mo in buckets[g] ensures mo.source in rows' {
      assert SourceOf(buckets[g], mo.source);
    }
  }

  /** Under distinct sources, committing one more group without `OR IGNORE` keeps every finished group linked. */
  lemma GroupLinked(objs: seq<MediaObject>, buckets: map<string, seq<MediaObject>>, done: seq<string>, leader: MediaObject,
                    rows: map<string, MediaRow>, last: int, added: set<string>,
                    rows': map<string, MediaRow>, last': int, added': set<string>)
    requires DistinctSources(objs) && Bucketed(objs, buckets) && leader.source in buckets && leader.source !in done
    requires GroupsLinked(buckets, done, rows)
    requires GroupWritten(rows, last, leader, buckets[leader.source], added, false, rows', last', added')
    ensures GroupsLinked(buckets, done + [leader.source], rows')
  {
    var g := leader.source;
    forall h | h in done && h in buckets
      ensures h in rows' && forall mo :: mo in buckets[h] ==> mo.source in rows' && rows'[mo.source].groupId == Some(rows'[h].id)
    {
      forall mo | mo in buckets[h] ensures mo.source in rows' && rows'[mo.source].groupId == Some(rows'[h].id) {
        assert !SourceOf(buckets[g], mo.source);
      }
    }
    forall mo | mo in buckets[g] ensures mo.source in rows' {
      assert SourceOf(buckets[g], mo.source);
    }
  }

  /** Once every group is written, so is every object that has or leads a group. */
  lemma AllGroupsWritten(objs: seq<MediaObject>, buckets: map<string, seq<MediaObject>>, done: seq<string>, rows: map<string, MediaRow>)
    requires Bucketed(objs, buckets) && (forall g :: g in buckets <==> IsGroupKey(objs, g))
    requires GroupsWritten(buckets, done, rows) && forall g :: g in buckets ==> g in done
    ensures forall s :: Grouped(objs, s) ==> s in rows
  {
    forall s | Grouped(objs, s) ensures s in rows {
      if !IsGroupKey(objs, s) {
        var mo :| mo in objs && mo.source == s && mo.group.Some?;
        assert IsGroupKey(objs, mo.group.value);
        assert mo in buckets[mo.group.value];
      }
    }
  }

  /** Once every group is linked, every object with a group points at its leader's row. */
  lemma AllGroupsLinked(objs: seq<MediaObject>, buckets: map<string, seq<MediaObject>>, done: seq<string>, rows: map<string, MediaRow>)
    requires Bucketed(objs, buckets) && (forall g :: g in buckets <==> IsGroupKey(objs, g))
    requires GroupsLinked(buckets, done, rows) && forall g :: g in buckets ==> g in done
    ensures forall mo :: mo in objs && mo.group.Some? ==>
              mo.group.value in rows && mo.source in rows && rows[mo.source].groupId == Some(rows[mo.group.value].id)
  {
    forall mo | mo in objs && mo.group.Some?
      ensures mo.group.value in rows && mo.source in rows && rows[mo.source].groupId == Some(rows[mo.group.value].id)
    {
      assert IsGroupKey(objs, mo.group.value);
      assert mo in buckets[mo.group.value];
    }
  }

  /** What the three write-free loops of `add_medias` established, in the shape the leader loop needs. */
  ghost predicate Elected(objs: seq<MediaObject>, buckets: map<string, seq<MediaObject>>, order: seq<string>,
                          leaders: map<string, MediaObject>)
  {
    && Bucketed(objs, buckets) && (forall g :: g in buckets <==> IsGroupKey(objs, g))
    && Distinct(order) && (forall g :: g in order <==> g in leaders) && (forall g :: g in leaders <==> g in buckets)
    && (forall g :: g in leaders ==> leaders[g].source == g && IsLastOfSource(objs, leaders[g]))
  }

  /**
   * The write-free phase of `add_medias`: bucket the objects by group, elect
   * the leaders, and find a group key that no object has as its source.
   */
  method PlanGroups(objs: seq<MediaObject>)
    returns (buckets: map<string, seq<MediaObject>>, order: seq<string>, leaders: map<string, MediaObject>, missing: Option<string>)
    ensures missing.Some? <==> exists g :: IsGroupKey(objs, g) && !HasSource(objs, g)
    ensures missing.Some? ==> IsGroupKey(objs, missing.value) && !HasSource(objs, missing.value)
    ensures missing.None? ==> Elected(objs, buckets, order, leaders)
  {
    var keys;
    keys, buckets := BucketByGroup(objs);
    order, leaders := ElectLeaders(objs, buckets);
    missing := FindMissingLeader(keys, leaders);
  }

  /** No object with a group had a row before the call. */
  ghost predicate MembersAbsent(objs: seq<MediaObject>, rows: map<string, MediaRow>) {
    forall mo :: mo in objs && mo.group.Some? ==> mo.source !in rows
  }

  /** The state of the leader loop after its first `k` groups were committed. */
  ghost predicate LoopState(objs: seq<MediaObject>, buckets: map<string, seq<MediaObject>>, order: seq<string>, k: nat,
                            rows0: map<string, MediaRow>, last0: int, rows: map<string, MediaRow>, last: int,
                            added: set<string>, ignoreExisting: bool)
  {
    && k <= |order|
    && IdsValid(rows, last) && last0 <= last && added <= rows.Keys
    && (forall s :: s in rows && s !in rows0 ==> s in added)
    && RowsKept(rows0, rows) && NewRowsFromGroups(objs, rows0, last0, rows)
    && GroupsWritten(buckets, order[..k], rows)
    && (!ignoreExisting && DistinctSources(objs) ==> GroupsLinked(buckets, order[..k], rows))
  }

  /** One turn of the leader loop: write group `order[k]`; unless it raised, the loop state moves on to `k + 1`. */
  method WriteNextGroup(objs: seq<MediaObject>, buckets: map<string, seq<MediaObject>>, order: seq<string>,
                        leaders: map<string, MediaObject>, k: nat, ghost rows0: map<string, MediaRow>, ghost last0: int,
                        rows: map<string, MediaRow>, last: int, added: set<string>, ignoreExisting: bool)
    returns (rows': map<string, MediaRow>, last': int, added': set<string>, failed: Option<string>)
    requires Elected(objs, buckets, order, leaders) && k < |order|
    requires LoopState(objs, buckets, order, k, rows0, last0, rows, last, added, ignoreExisting)
    ensures failed.Some? ==> !ignoreExisting
    ensures !ignoreExisting && DistinctSources(objs) && MembersAbsent(objs, rows0) ==> failed.None?
    ensures failed.None? ==> LoopState(objs, buckets, order, k + 1, rows0, last0, rows', last', added', ignoreExisting)
  {
    var g := order[k];
    assert order[..k + 1] == order[..k] + [g];
    var leader := leaders[g];
    assert leader in objs by {
      var i :| 0 <= i < |objs| && objs[i] == leader && forall j :: i < j < |objs| ==> objs[j].source != leader.source;
    }
    assert g !in order[..k] by {
      assert forall i :: 0 <= i < k ==> order[i] != order[k];
    }
    if DistinctSources(objs) && MembersAbsent(objs, rows0) {
      GroupMembersDistinct(objs, g);
      assert FreshMembers(rows, leader, buckets[g], added);
    }
    rows', last', added', failed := WriteGroup(rows, last, leader, buckets[g], added, ignoreExisting);
    if failed.None? {
      GroupCommitted(objs, buckets, leader, rows0, last0, rows, last, added, ignoreExisting, rows', last', added');
      GroupWrittenAdds(buckets, order[..k], leader, rows, last, added, ignoreExisting, rows', last', added');
      if !ignoreExisting && DistinctSources(objs) {
        GroupLinked(objs, buckets, order[..k], leader, rows, last, added, rows', last', added');
      }
    }
  }

  /**
   * The leader loop of `add_medias`, group by group in leader order, each
   * group committed on its own. `failed` is the member source whose insert
   * raised; that group's writes are discarded and the loop ends there.
   */
  method WriteGroups(objs: seq<MediaObject>, buckets: map<string, seq<MediaObject>>, order: seq<string>,
                     leaders: map<string, MediaObject>, rows: map<string, MediaRow>, last: int, ignoreExisting: bool)
    returns (rows': map<string, MediaRow>, last': int, failed: Option<string>)
    requires IdsValid(rows, last)
    requires Elected(objs, buckets, order, leaders)
    ensures IdsValid(rows', last') && last <= last'
    ensures failed.Some? ==> !ignoreExisting
    ensures !ignoreExisting && DistinctSources(objs) && MembersAbsent(objs, rows) ==> failed.None?
    ensures RowsKept(rows, rows') && NewRowsFromGroups(objs, rows, last, rows')
    ensures failed.None? ==> forall s :: Grouped(objs, s) ==> s in rows'
    ensures failed.None? && !ignoreExisting && DistinctSources(objs) ==>
              forall mo :: mo in objs && mo.group.Some? ==>
                mo.group.value in rows' && mo.source in rows' && rows'[mo.source].groupId == Some(rows'[mo.group.value].id)
  {
    rows', last', failed := rows, last, None;
    var added: set<string> := {};
    var k := 0;
    while k < |order|
      invariant LoopState(objs, buckets, order, k, rows, last, rows', last', added, ignoreExisting)
    {
      var groupRows, groupLast, groupAdded, groupFailed :=
        WriteNextGroup(objs, buckets, order, leaders, k, rows, last, rows', last', added, ignoreExisting);
      if groupFailed.Some? {
        return rows', last', groupFailed;
      }
      rows', last', added := groupRows, groupLast, groupAdded;
      k := k + 1;
    }
    assert order[..k] == order;
    AllGroupsWritten(objs, buckets, order, rows');
    if !ignoreExisting && DistinctSources(objs) {
      AllGroupsLinked(objs, buckets, order, rows');
    }
  }
}
