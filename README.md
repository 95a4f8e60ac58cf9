# Simplified M3 DB data loaders, modelled in Dafny

The Simplified M3 DB stores media objects and the tags that describe them.

A **tagset** is a named family of tags. It has one of seven **tag types**: alphanumerical, timestamp, time, date, integer, decimal or JSON.

Every tag has a row in a generic `tags` table with an auto-increment id. It also has a row holding its value in the table of its type, for example `alphanumerical_tags`. That table is keyed by the same id.

A **media object** has a unique source. It may name a **group**: the source of a leader object whose row id the members store in `group_id`. A **tagging** links a media row to a tag.

Two loaders fill these tables:

- `SimpleM3DataLoader` writes to SQLite. It has tagsets, tags with de-duplication against existing values, medias with groups, a batch tag resolver, and bulk taggings.
- `SimpleDataLoader` writes to DuckDB. It has tagsets, tags without de-duplication, and a single tagging.

The database is modelled as values:

- `tagsets` is a map from name to `(id, tagtype_id)`.
- `tags` is a map from id to `(tagset_id, tagtype_id)`, kept with its auto-increment high-water mark.
- Each type table is a sequence of `(id, value, tagset_id)` rows in insertion order.
- `medias` is a map from source to row, with its own high-water mark.
- `taggings` is a set of `(media_id, tag_id)` pairs.

Each loader is a class over these fields (`M3Loader.Store` and `DuckLoader.DuckStore`). A loader function is a method of that class. Its outcome is a `Status`:

- `Committed`: the transaction committed.
- `RolledBack(error)`: an exception was caught and the transaction rolled back. The tables are as they were before.
- `Raised(error)`: the exception escaped the function. In DuckDB this happens when the handler's own `ROLLBACK` raises.

The work inside a transaction is done on local copies by value-level methods. The class methods assign those copies only on commit.

Loops that write rows or build the loaders' dictionaries and lists are `while` loops in methods. Each has an invariant that ties it to a recursive reference function, and the properties are proved about those functions. These loops are:

- the `executemany` inserts into `tags`, the type tables, `tagsets`, `medias` and `taggings`;
- the tagset loop of `add_tagsets`;
- the three loops of `add_medias` before its writes, the member loop of one group, and the leader loop;
- steps 1 to 3 of `add_media_taggings`.

Three source loops have no `while` loop here and are modelled as recursive functions only:

- the `for member in TagType` search (`TagTypes.FindName`);
- the list comprehension that keeps the new values (`M3Loader.Unresolved`);
- the dictionary comprehension over the joined rows (`Tables.MatchRows`).

Modules:

- `Outcomes`: Option, Result, Status and the error cases.
- `TagTypes`: the enum, name lookup by value, and table names.
- `Tables`: rows, id arithmetic, and last-row and first-row matching.
- `TagResolver`: `get_tag_id_map_for_tagset_values`.
- `TagsetTable`: the tagsets insert.
- `TagWrites`: the write phase of `add_tags`, shared by both loaders.
- `MediaGrouping`: the write-free phase of `add_medias`.
- `MediaTable`: the leader loop of `add_medias`.
- `MediaTaggings`: the three steps of `add_media_taggings`.
- `M3Loader`: the SQLite loader.
- `DuckLoader`: the DuckDB loader.

Two points about the code:

- **The decimal table name.** The table for decimal tags is `numerical_dec_tags`, the lower-cased enum name `NUMERICAL_DEC` plus `_tags`.
- **Objects with no group.** `add_medias` writes only objects that have a group or lead one. It never writes an object that has no group and leads none. This is what the code does, although its own comment at SimpleM3DataLoader/SimpleM3DataLoader.py:190 says that objects without groups are added first.

## Model

| member | source | states |
|---|---|---|
| TagTypes.FindNameFindsFirst | SimpleM3DataLoader/SimpleM3DataLoader.py:17-21 | The search over the members in declaration order succeeds iff some member carries the value. It then returns the name of the first such member. Otherwise it is the ValueError for that value. |
| TagTypes.NameByValueDefinedOnOneToSeven | SimpleM3DataLoader/SimpleM3DataLoader.py:8-21 | `get_tagtype_name_by_value` succeeds exactly for the values 1..7 and raises UnknownTagType for every other value. |
| TagTypes.NameByValueRoundTrip | SimpleDataLoader/SimpleDataLoader.py:7-20 | Looking up a member's own value gives back that member's name, for all seven members. |
| TagTypes.TableNamesWrittenOut | SimpleM3DataLoader/SimpleM3DataLoader.py:149 | The lower-cased name plus `_tags` gives alphanumerical_tags, timestamp_tags, time_tags and date_tags. |
| TagTypes.NumericTableNamesWrittenOut | SimpleM3DataLoader/SimpleM3DataLoader.py:277 | The same construction gives numerical_int_tags, numerical_dec_tags and json_tags. |
| TagTypes.TableNamesDistinct | SimpleDataLoader/SimpleDataLoader.py:99 | Two different tag types never share a table. |
| Tables.Block | SimpleM3DataLoader/SimpleM3DataLoader.py:131-137 | n inserts into `tags` after id `after` occupy exactly the ids after+1..after+n, each with the batch's tagset and type. |
| Tables.IdRangeIsTheInsertedBlock | SimpleM3DataLoader/SimpleM3DataLoader.py:138-141 | The ids derived from the last inserted id are n strictly ascending ids ending at it. They are exactly the ids the n inserts were given. |
| Tables.ZipOfInsertedBlock | SimpleDataLoader/SimpleDataLoader.py:90-102 | The typed rows for a batch of n values, zipped with the ids derived after its n inserts, give one row per value in batch order. Every id is one of the block just inserted, so a generic row of the batch backs it. Every inserted id is used, and no id is used twice. |
| Tables.LastMatch | SimpleM3DataLoader/SimpleM3DataLoader.py:297-308 | A lookup of one value finds an id iff some row of the type table holds that value under the tagset. |
| Tables.LastMatchIsLastRow | SimpleM3DataLoader/SimpleM3DataLoader.py:308 | The id found is from a row holding the value under the tagset, and no later row holds it. The dict comprehension keeps the last row. |
| Tables.FirstMatch | SimpleDataLoader/SimpleDataLoader.py:127-135 | `fetchone` finds an id iff some row matches. The id is from the first matching row. |
| Tables.MatchRows | SimpleM3DataLoader/SimpleM3DataLoader.py:297-308 | Joining the staged values with the table gives exactly the staged values that occur. Each is mapped to the id its own lookup finds. |
| Tables.LastMatchKeptByAppend | SimpleM3DataLoader/SimpleM3DataLoader.py:147-153 | Appending typed rows never makes a found value unfindable. |
| Tables.LastMatchFindsAppended | SimpleM3DataLoader/SimpleM3DataLoader.py:147-153 | A value in an appended row of the tagset is found afterwards. |
| Tables.FirstMatchKeptByAppend | SimpleDataLoader/SimpleDataLoader.py:97-103 | Appending typed rows never changes the id `fetchone` finds for a value that was already present. |
| Tables.FirstMatchFindsAppended | SimpleDataLoader/SimpleDataLoader.py:97-103 | A value in an appended row of the tagset is found afterwards. |
| Tables.TableForIsATypeTable | SimpleM3DataLoader/SimpleM3DataLoader.py:144-149 | A table derived from a type id is the table of one of the seven types. |
| Tables.CoupledAfterBatch | SimpleM3DataLoader/SimpleM3DataLoader.py:130-153 | After a batch of generic rows and the typed rows with the derived ids, every typed row is still backed by a generic row of the same tagset and type. |
| TagResolver.ResolveTagIds | SimpleM3DataLoader/SimpleM3DataLoader.py:245-317 | The resolver returns `{}` for an unknown tagset. It returns None, the exception path, iff the tagset's type id is unknown or its table is missing. Otherwise its keys are exactly (name, v) for the requested v that resolve, each mapped to the id that v resolves to alone. |
| TagResolver.KeyedMatches | SimpleM3DataLoader/SimpleM3DataLoader.py:290-308 | The join keyed by (tagset name, value) contains exactly the requested values found, each with the last matching row's id. |
| TagResolver.ResolverAnswersUnderSchema | SimpleM3DataLoader/SimpleM3DataLoader.py:256-277 | With all type tables present, the resolver raises iff the tagset exists and its type id names no table. |
| TagResolver.ResolutionKeptByAppend | SimpleM3DataLoader/SimpleM3DataLoader.py:297-308 | Appending rows to the type tables keeps every resolved value resolving. |
| TagResolver.ResolvedIdIsATag | SimpleM3DataLoader/SimpleM3DataLoader.py:376-379 | A resolved id is a generic tag of the tagset and is at least 1, so the `if tag_id:` test never drops it. |
| TagsetTable.InsertAll | SimpleM3DataLoader/SimpleM3DataLoader.py:90-96 | The row-by-row insert never lowers the counter. It can raise only without OR IGNORE. |
| TagsetTable.InsertAllFailsOnCollision | SimpleDataLoader/SimpleDataLoader.py:51-57 | The insert raises iff OR IGNORE is off and some name is taken or repeats an earlier one in the batch. |
| TagsetTable.InsertAllInserts | SimpleM3DataLoader/SimpleM3DataLoader.py:90-96 | Without a raise, old rows are kept and every batch name is present. Each new name gets a fresh id above the old counter and the type of the first tagset with that name. |
| TagsetTable.CollisionOfExtendedBatch | SimpleM3DataLoader/SimpleM3DataLoader.py:90-96 | A batch one tagset longer collides iff its prefix collides or the new name is taken or repeated. |
| TagsetTable.NamesOfBatchExtend | SimpleM3DataLoader/SimpleM3DataLoader.py:90-96 | Inserting one more tagset, new or ignored, keeps the inserted-rows relation. |
| TagsetTable.NewNameOfBatchExtend | SimpleM3DataLoader/SimpleM3DataLoader.py:90-96 | After one more tagset, a name new since the start keeps a fresh id and its first tagset's type. |
| TagsetTable.InsertTagsetRows | SimpleDataLoader/SimpleDataLoader.py:51-57 | The `executemany` loop produces exactly the rows, counter and failure of the reference insert. |
| TagsetTable.InsertAllStops | SimpleM3DataLoader/SimpleM3DataLoader.py:90-96 | Once the insert has raised, the rest of the batch changes nothing. |
| TagWrites.InsertGeneric | SimpleDataLoader/SimpleDataLoader.py:84-91 | The loop adds exactly the block of n rows after the old high-water mark and advances the mark by n. |
| TagWrites.InsertTyped | SimpleM3DataLoader/SimpleM3DataLoader.py:147-153 | The loop appends exactly the zipped typed rows to the type table. |
| TagWrites.WriteBatch | SimpleM3DataLoader/SimpleM3DataLoader.py:130-154 | The write succeeds iff the batch is non-empty and the type id is known. An empty batch raises IndexError and an unknown type raises ValueError, and both leave the tables unchanged. On success the generic rows fill the n ids after the mark and the type table grows by the values paired with those ids. The tables stay coupled. |
| M3Loader.Unresolved | SimpleM3DataLoader/SimpleM3DataLoader.py:127-128 | `new_values` holds exactly the values not among the existing ones and is no longer than the input. |
| M3Loader.UnresolvedCounts | SimpleM3DataLoader/SimpleM3DataLoader.py:127-128 | Each value that does not already exist is kept as often as the input lists it. Each existing value is dropped every time. |
| M3Loader.UnresolvedOfConcat | SimpleM3DataLoader/SimpleM3DataLoader.py:128 | Filtering a concatenation gives the concatenation of the filtered parts. So the kept values stay in input order, the order in which `zip` pairs them with the new ids. |
| M3Loader.NewValues | SimpleM3DataLoader/SimpleM3DataLoader.py:126-128 | When the resolver raises (`or {}`), every value is new. Otherwise the new values are exactly the requested values that do not resolve. |
| M3Loader.NewValuesCounts | SimpleM3DataLoader/SimpleM3DataLoader.py:126-128 | When the resolver answers, the new values are the batch filtered by "does not resolve". Each such value is kept as often as the batch lists it, and each resolving value is dropped. |
| M3Loader.UnresolvedKeepsAllWhenNothingKnown | SimpleM3DataLoader/SimpleM3DataLoader.py:126-128 | With nothing existing, `new_values` is the input list itself, duplicates included. |
| M3Loader.NewValuesEmptyIffAllResolve | SimpleM3DataLoader/SimpleM3DataLoader.py:126-141 | For a known tagset the new values are empty iff every requested value already resolves. That is the case where `tag_ids[0]` raises and `add_tags` changes nothing. |
| M3Loader.BatchResolves | SimpleM3DataLoader/SimpleM3DataLoader.py:143-153 | Appending the new values' typed rows makes every requested value resolve. It keeps every earlier resolution and only appends. |
| M3Loader.TagsBatchEffect | SimpleM3DataLoader/SimpleM3DataLoader.py:117-161 | Whether it commits or rolls back, `add_tags` only appends to the type tables. For a known tagset every requested value resolves afterwards. If all values already resolved, nothing changes. |
| M3Loader.RequestedResolveKept | SimpleM3DataLoader/SimpleM3DataLoader.py:102-105 | After one more tagset of the loop, every requested tagset with a known type so far has all its values resolving. |
| M3Loader.Store.CommitBatch | SimpleM3DataLoader/SimpleM3DataLoader.py:130-158 | Commits iff the batch is non-empty and its type is known. Otherwise it rolls back with NoNewTags or UnknownTagType and the tag tables are unchanged. A commit leaves exactly the batch written. |
| M3Loader.Store.AddTags | SimpleM3DataLoader/SimpleM3DataLoader.py:117-161 | Rolls back with TagsetNotFound iff the tagset is missing. Commits iff the type is known and some value is new. A commit writes exactly the new values with fresh consecutive ids. Afterwards every value resolves, and the tables are append-only and unchanged when nothing was new. |
| M3Loader.Store.InsertTagsets | SimpleM3DataLoader/SimpleM3DataLoader.py:84-100 | Rolls back iff OR IGNORE is off and a name collides, leaving the table unchanged. Otherwise the committed checkpoint holds the inserted rows. |
| M3Loader.Store.AddRequestedTags | SimpleM3DataLoader/SimpleM3DataLoader.py:102-105 | A tagset without tags changes nothing. One with tags, once its type is known, has every value resolving. Earlier resolutions are kept. |
| M3Loader.Store.AddRequestedTagsAll | SimpleM3DataLoader/SimpleM3DataLoader.py:102-105 | After the loop, every tagset of the batch with tags and a known type has all its values resolving. The type tables only grew. |
| M3Loader.Store.AddTagsets | SimpleM3DataLoader/SimpleM3DataLoader.py:84-115 | Rolls back iff OR IGNORE is off and a name collides, with nothing written. Otherwise the tagsets are inserted and every requested tag resolves. |
| M3Loader.Store.AddMedias | SimpleM3DataLoader/SimpleM3DataLoader.py:164-242 | Rolls back with GroupLeaderNotFound iff some group key is no object's source, with nothing written. Any other rollback is a duplicate member source without OR IGNORE. It commits when OR IGNORE is off, sources are distinct, no object with a group already has a row, and every group has a leader. With distinct sources, a DuplicateMedia rollback means some object with a group already had a row. Earlier rows keep their id, type and thumbnail, and new rows come from grouped objects. On commit every grouped object has a row. With distinct sources and no OR IGNORE, each member's `group_id` is its leader's id. |
| M3Loader.Store.AddMediaTaggings | SimpleM3DataLoader/SimpleM3DataLoader.py:320-395 | Rolls back with MediaNotFound iff a listed source has no row. Otherwise it rolls back iff some listed tagset makes the resolver raise, and a rollback leaves `taggings` unchanged. On commit, `taggings` is the old set plus exactly the pairs (media id, tag id) for each listed value that resolves. It changes nothing when all those pairs were present, because of INSERT OR IGNORE. |
| M3Loader.Store.InsertTaggings | SimpleM3DataLoader/SimpleM3DataLoader.py:381-387 | INSERT OR IGNORE of the pair list adds exactly its pairs to the set and changes no other table. |
| MediaGrouping.GroupMembers | SimpleM3DataLoader/SimpleM3DataLoader.py:175-179 | A group's bucket holds exactly the objects naming that group. It is empty iff no object names it. |
| MediaGrouping.GroupMembersDistinct | SimpleM3DataLoader/SimpleM3DataLoader.py:175-179 | The bucket of a group, taken from objects with distinct sources, has distinct sources. |
| MediaGrouping.BucketByGroup | SimpleM3DataLoader/SimpleM3DataLoader.py:173-179 | `group_medias` has exactly the group keys, each once, in insertion order. Each bucket holds its members in input order. |
| MediaGrouping.ElectLeaders | SimpleM3DataLoader/SimpleM3DataLoader.py:181-183 | `leaders` holds exactly the group keys that are some object's source. Each maps to the last object with that source. |
| MediaGrouping.FindMissingLeader | SimpleM3DataLoader/SimpleM3DataLoader.py:185-187 | Finds none iff every group has a leader. Otherwise it returns the first group key, in insertion order, without one. |
| MediaTable.WriteLeader | SimpleM3DataLoader/SimpleM3DataLoader.py:195-206 | The leader's row is present and `group_id` is its id. The row is new, with the next id, exactly when the source was absent. Nothing else changes. |
| MediaTable.SetGroupIds | SimpleM3DataLoader/SimpleM3DataLoader.py:211-226 | Members already added get `group_id` set to the group's id. The other members are collected in order, and nothing else changes. Members with distinct sources give collected members with distinct sources. |
| MediaTable.PendingStaysDistinct | SimpleM3DataLoader/SimpleM3DataLoader.py:213-216 | Collecting one more member of a group with distinct sources keeps the collected sources distinct. |
| MediaTable.MembersInsert | SimpleM3DataLoader/SimpleM3DataLoader.py:227-233 | The member insert never lowers the counter. It can raise only without OR IGNORE. |
| MediaTable.MembersInsertFailsOnCollision | SimpleM3DataLoader/SimpleM3DataLoader.py:227-233 | The member insert raises iff OR IGNORE is off and some source is present or repeated. |
| MediaTable.MembersInsertInserts | SimpleM3DataLoader/SimpleM3DataLoader.py:227-233 | Without a raise, earlier rows are untouched. Each member source is present, and new ones get fresh ids and the group's id. |
| MediaTable.MembersInsertedExtend | SimpleM3DataLoader/SimpleM3DataLoader.py:227-233 | One more member, new or ignored, keeps the inserted-rows relation. |
| MediaTable.InsertMembers | SimpleM3DataLoader/SimpleM3DataLoader.py:227-233 | The `executemany` loop produces exactly the reference insert's rows, counter and failure. |
| MediaTable.MembersInsertStops | SimpleM3DataLoader/SimpleM3DataLoader.py:227-233 | Once the member insert has raised, the rest of the batch changes nothing. |
| MediaTable.CollisionOfExtendedBatch | SimpleM3DataLoader/SimpleM3DataLoader.py:227-233 | A member batch one longer collides iff its prefix does or the new source is present or repeated. |
| MediaTable.NoCollisionForFreshMembers | SimpleM3DataLoader/SimpleM3DataLoader.py:211-233 | If the members not yet added (other than the leader) have no row and their sources are distinct, the member insert meets no existing or repeated source. |
| MediaTable.WriteGroup | SimpleM3DataLoader/SimpleM3DataLoader.py:192-234 | One leader iteration fails only without OR IGNORE. It does not fail when the group's sources are distinct and its members not yet added have no row. Otherwise the leader and all members have rows and earlier rows keep what they were inserted with. Only members' `group_id`s change, and without OR IGNORE every member points at the leader. |
| MediaTable.GroupKeys | SimpleM3DataLoader/SimpleM3DataLoader.py:208-234 | After a group, the added sources and the present rows are the old ones plus the leader and the members. |
| MediaTable.GroupRows | SimpleM3DataLoader/SimpleM3DataLoader.py:192-234 | A group's writes keep ids valid and earlier rows' id, type and thumbnail. Non-members keep their group. New rows have fresh ids and come from the leader or a member. |
| MediaTable.GroupLinks | SimpleM3DataLoader/SimpleM3DataLoader.py:211-233 | Without a collision, every member's row points at the leader's id after the group's writes. |
| MediaTable.GroupCommitted | SimpleM3DataLoader/SimpleM3DataLoader.py:235 | Committing one more group keeps earlier rows and keeps every new row attributed to a grouped object. |
| MediaTable.NewRowFromGroup | SimpleM3DataLoader/SimpleM3DataLoader.py:211-216 | A row written from a group's leader or members comes from an input object that has or leads a group. |
| MediaTable.GroupWrittenAdds | SimpleM3DataLoader/SimpleM3DataLoader.py:192-235 | A committed group joins the groups whose leader and members all have rows. |
| MediaTable.GroupLinked | SimpleM3DataLoader/SimpleM3DataLoader.py:192-235 | With distinct sources and no OR IGNORE, committing a group keeps every finished group's members pointing at their leader. |
| MediaTable.AllGroupsWritten | SimpleM3DataLoader/SimpleM3DataLoader.py:192-235 | Once every group is written, every object that has or leads a group has a row. |
| MediaTable.AllGroupsLinked | SimpleM3DataLoader/SimpleM3DataLoader.py:192-235 | Once every group is linked, every object with a group points at its leader's row. |
| MediaTable.PlanGroups | SimpleM3DataLoader/SimpleM3DataLoader.py:171-187 | The write-free phase reports a missing leader iff some group key is no object's source, and names such a key. Otherwise buckets and leaders are as elected. |
| MediaTable.WriteNextGroup | SimpleM3DataLoader/SimpleM3DataLoader.py:192-235 | One leader-loop turn fails only without OR IGNORE. It cannot fail when sources are distinct and no object with a group had a row before the call. Otherwise it advances the loop state by one committed group; every row written during the call has its source in `added`. |
| MediaTable.WriteGroups | SimpleM3DataLoader/SimpleM3DataLoader.py:192-235 | The leader loop keeps ids valid and earlier rows, and attributes new rows to grouped objects. It fails only without OR IGNORE, and never when sources are distinct and no object with a group had a row before. Without failure every grouped object has a row, and with distinct sources and no OR IGNORE every member points at its leader. |
| MediaTaggings.MergeAdds | SimpleM3DataLoader/SimpleM3DataLoader.py:357-360 | Merging one mapping's entries adds exactly their tagset names and, to each name, exactly the values listed under it. |
| MediaTaggings.GatherIsRequests | SimpleM3DataLoader/SimpleM3DataLoader.py:344-360 | `tagset_to_values` has exactly the listed tagset names, each with exactly the values some mapping lists under it. |
| MediaTaggings.LookUpAndGather | SimpleM3DataLoader/SimpleM3DataLoader.py:344-360 | Step 1 fails iff some listed source has no row, and names such a source. Otherwise it looks up every source's id and gathers exactly the requested values. |
| MediaTaggings.ListOf | SimpleM3DataLoader/SimpleM3DataLoader.py:367 | `list(tag_values)` holds exactly the set's values. |
| MediaTaggings.ResolveAll | SimpleM3DataLoader/SimpleM3DataLoader.py:365-368 | Step 2 fails (`update(None)`) iff some requested tagset makes the resolver raise, and names it. Otherwise `tag_mapping` has exactly the requested (name, value) keys that resolve, each mapped to the id that value resolves to alone. |
| MediaTaggings.ValuePairsHold | SimpleM3DataLoader/SimpleM3DataLoader.py:376-379 | For one tagset's values, the pairs are exactly (media id, id) for the values mapped to a non-zero id. |
| MediaTaggings.ItemPairsHold | SimpleM3DataLoader/SimpleM3DataLoader.py:375-379 | The same holds over all tagsets of one mapping. |
| MediaTaggings.MappingPairsHold | SimpleM3DataLoader/SimpleM3DataLoader.py:373-379 | The same holds over all mappings, each with its own media id. |
| MediaTaggings.CollectTaggings | SimpleM3DataLoader/SimpleM3DataLoader.py:372-379 | The outer loop of step 3 builds exactly the reference pair list. |
| MediaTaggings.CollectMappingTaggings | SimpleM3DataLoader/SimpleM3DataLoader.py:375-379 | The inner loops of step 3 build exactly the reference pair list of one mapping. |
| MediaTaggings.PairsAreLinks | SimpleM3DataLoader/SimpleM3DataLoader.py:344-379 | Built from the looked-up ids and the resolved map, a pair is produced iff it links a listed media to the id a listed value resolves to. This reconciles the batched three steps with per-value resolution. |
| DuckLoader.FoundKeptByAppend | SimpleDataLoader/SimpleDataLoader.py:127-135 | Appending typed rows never changes the tag that the lookup of a present value finds. |
| DuckLoader.BatchFound | SimpleDataLoader/SimpleDataLoader.py:84-103 | A written batch only appends to the type tables. Afterwards every value of the batch is found, and earlier answers are unchanged. |
| DuckLoader.RequestedFoundKept | SimpleDataLoader/SimpleDataLoader.py:60-63 | After one more tagset of the loop, every requested tagset with a known type so far has all its values found. |
| DuckLoader.DuckStore.CommitBatch | SimpleDataLoader/SimpleDataLoader.py:82-104 | Commits iff the batch is non-empty and its type is known. Otherwise it rolls back with the tag tables unchanged. A commit leaves exactly the batch written. |
| DuckLoader.DuckStore.AddTags | SimpleDataLoader/SimpleDataLoader.py:73-111 | Raises TagsetNotFound iff the tagset is missing, because the handler's ROLLBACK has no transaction. Commits iff the type is known and the list is non-empty. Every value is written, duplicates included, with fresh consecutive ids, and is found afterwards. Earlier answers are unchanged. |
| DuckLoader.DuckStore.InsertTagsets | SimpleDataLoader/SimpleDataLoader.py:50-58 | Rolls back iff OR IGNORE is off and a name collides, leaving the table unchanged. Otherwise it commits the inserted rows. |
| DuckLoader.DuckStore.AddRequestedTags | SimpleDataLoader/SimpleDataLoader.py:60-63 | Raises iff tags are requested for a missing tagset. A requested tagset with a known type has all its values found, and earlier answers are unchanged. |
| DuckLoader.DuckStore.AddRequestedTagsAll | SimpleDataLoader/SimpleDataLoader.py:60-63 | The loop completes iff every tagset with tags exists. Otherwise it stops on a missing one with TagsetNotFound. On completion every requested tag is found. |
| DuckLoader.DuckStore.AddTagsets | SimpleDataLoader/SimpleDataLoader.py:45-70 | Rolls back iff OR IGNORE is off and a name collides, with nothing written. Otherwise the tagsets are committed. It then commits iff every tagset with tags exists, else the TagsetNotFound escapes. On commit every requested tag is found. |
| DuckLoader.DuckStore.AddMediaTagging | SimpleDataLoader/SimpleDataLoader.py:114-151 | Inserts iff the value is found under the tagset and the pair is new, adding exactly that pair. Otherwise `taggings` is unchanged. The error is TagsetNotFound iff the tagset is missing, and TagNotFound iff its type is known but the value is absent. |

## Left out

- Value coercion is not modelled. Values are strings compared as given. Conversion to Decimal for decimal tagsets and the SQL column affinities (DATE, TIME, TIMESTAMP, INTEGER, DECIMAL(10,5)) are left out. So are JSON encoding and equality of values that differ only in representation.
- SQL text, cursors and the database drivers are not modelled. Each statement is modelled by its effect on the tables. The temporary table of the resolver is modelled as the set of staged values.
- `_sqlite_max_variables` is not part of this model. No core function calls it.
- Console output (`print`) is not modelled.
- Concurrency is not modelled. One writer uses the database at a time.
- `main.py`, which reads the input files and calls the loaders, is not part of this model.
- The commented-out `create_and_add_media_taggings` of the DuckDB loader is not part of this model.
- The DDL is not part of this model. The model assumes one table per tag type. It assumes DuckDB's `tag_types.description` is the lower-cased type name, and that the typed tables' `name` column holds the value. It assumes `taggings` has a key on `(media_id, tag_id)`. Foreign keys (a tagging's `media_id`) are not checked.
- Auto-increment counters are restored by a rollback, as SQLite's max-rowid allocation does. The non-transactional DuckDB sequences are not modelled.
- Join results are taken in the type table's insertion order. Neither SQL engine promises that order.
- M3Loader.Store.AddMedias: when OR IGNORE is off, the contract gives a condition under which the call commits and a consequence of a DuplicateMedia rollback, but no exact condition for failure. Whether a member that already has a row fails depends on the order of the groups. The member fails unless it leads a group that was written earlier in the same call, because then it is updated instead of inserted. That order-dependent case is not stated. Groups committed before a failure stay.
- M3Loader.Store.AddMedias: that members point at their leader is proved only for inputs with distinct sources and without OR IGNORE. With a repeated source, or an ignored existing row, a row can keep another group's id.
- MediaTaggings.MediaTagMapping: the `tagsets` dictionary of a mapping is modelled as a sequence of (name, values) entries. Distinct keys are not enforced.
- DuckLoader.DuckStore.AddMediaTagging: `media_id` is taken as given. No media row is required for it.
