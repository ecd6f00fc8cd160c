# Vessel directory: denormalised views over a wide-column store

This project models, in Dafny, the denormalisation layer of a vessel directory
service written in Java on top of a Cassandra-style store. The schema has
three tables. The code writes a vessel to two of them; the third,
`vessels_by_departure_port`, is only read:

- in `vessels`, partitioned by visibility: `_ALL` for global vessels, the
  creation center's identifier for local ones;
- in `vessels_by_uuid`, keyed by identifier;
- in `vessels_by_departure_port`, keyed by last departure port, then
  departure time and identifier (read by `findByDeparturePort`, never
  written).

The model covers the following pieces:

- **Entity model.** `Vessel` and its `Builder`, including the order of the
  `build` checks and the visibility default. The value types
  `VesselDeparture`, `CenterReference`, `PortReference` and
  `VesselCategoryReference`.
- **Row mappings.** The embedded `VesselUdt` and the three table mappings,
  each as a pair of functions `from` / `toDomainModel`.
- **Table registry.** `VesselTableType`, which lists the tables a write or
  delete touches.
- **Service.** `VesselService`: `add`, `update`, `save`, `remove`, `delete`,
  `find`, `findAll`, `findByNameFragment`, `findByCategory`,
  `findByDeparturePort` and `DEPARTURE_RANGE`.

How the Java is modelled:

- Java `null` is `Option`.
- Each exception the code can throw is a `Failure` of `Result`, carrying one
  `Errors.Error` per cause.
- Time is an integer number of milliseconds.
- The store is a value: three tables, each a sequence of rows with a
  primary-key function.
- A batch is applied as the sequence of its upserts and deletes.
- Every service operation takes the store and returns the new store or the
  query result.
- The random UUID of `add` and the clock of `findByDeparturePort` are
  parameters.

The model keeps several behaviours of the code exactly as they are:

- **The registry has only two entries**, `VESSELS` and `VESSELS_BY_UUID`.
  No call therefore ever writes `vessels_by_departure_port`, although
  `findByDeparturePort` reads it. `ServiceProperties.NoDeparturesEverFound`
  proves that, from an empty store, that query always returns nothing.
- **`add` ignores the vessel's own identifier.**
- **A visibility change leaves an orphan row.** `save` writes only the keys
  derived from the current state. So when an update changes the visibility,
  the old `vessels` row stays in its old partition. `findAll` then lists the
  vessel twice, and a later `remove` leaves that row behind.
- **A center whose identifier is `_ALL` shares the global partition.**
  `findByNameFragment` and `findByCategory` issue two queries, so they return
  its rows twice. `findAll` uses a single `IN` query; the model assumes that a
  repeated `IN` value reads the partition once.

Some behaviours of the code are easy to misread, and the model follows the
code as written:

- `build` only checks that the name is not null, so an empty name is
  accepted.
- No argument is checked for emptiness by the Java code.
- The name search issues `LIKE '%fragment%'` against a secondary index whose
  configuration, and so whose case behaviour, is not shown. The model treats
  it as plain, case-sensitive substring containment.
- `save` never writes `vessels_by_departure_port`, because the registry has
  no entry for it.
- The two partition reads of `findByNameFragment` and `findByCategory` can
  overlap (see `ServiceProperties.NameFragmentTwiceForAllNamedCenter`), and
  the row a visibility change leaves behind stays reachable through
  `findAll` (see `ServiceProperties.RemoveLeavesOrphan`).

Files, one module each:

- `wrappers.dfy`
- `errors.dfy`
- `seqs.dfy`
- `uuids.dfy`
- `references.dfy`
- `departures.dfy`
- `vessels.dfy`
- `vessel_udt.dfy`
- `tables.dfy`
- `vessels_table.dfy`
- `vessels_by_uuid_table.dfy`
- `vessels_by_departure_port_table.dfy`
- `store.dfy`
- `vessel_table_type.dfy`
- `vessel_service.dfy`
- `service_properties.dfy`

## Model

| member | source | states |
|---|---|---|
| Seqs.MapResult | src/main/java/test/sdc/cassandra/VesselService.java:76-78 | converting query rows succeeds iff every row converts; the i-th vessel is the i-th row's; the results are exactly the conversions of the rows; on failure it is the first failing row's error |
| Seqs.MapResultSplit | src/main/java/test/sdc/cassandra/VesselService.java:102-108 | a concatenation of row lists converts only when each list does, and then to the two conversions in order |
| Seqs.MapResultAppend | src/main/java/test/sdc/cassandra/VesselService.java:102-108 | converting two row lists appended equals appending their conversions (the two `addAll` calls followed by one `map`) |
| Seqs.FilterDisjointUnion | src/main/java/test/sdc/cassandra/VesselService.java:69-71 | reading two disjoint partitions gives, as a multiset, the rows of their union |
| Uuids.FromString | src/main/java/test/sdc/cassandra/VesselService.java:201 | `UUID.fromString` succeeds exactly on canonical UUID text, returning that text, and otherwise fails with a malformed-identifier error |
| References.CenterOf | src/main/java/test/sdc/model/CenterReference.java:28-33 | `of(null)` throws; otherwise the reference holds the given identifier |
| References.PortOf | src/main/java/test/sdc/model/PortReference.java:28-33 | `of(null)` throws; otherwise the reference holds the given identifier |
| References.CategoryOf | src/main/java/test/sdc/model/VesselCategoryReference.java:28-33 | `of(null)` throws; otherwise the reference holds the given identifier |
| References.ReferenceEquality | src/main/java/test/sdc/model/CenterReference.java:57-60 | two references built by `of` are equal iff their identifiers are |
| Departures.Of | src/main/java/test/sdc/model/VesselDeparture.java:31-38 | a null port throws first, then a null time; with both present the getters return exactly the arguments |
| Vessels.FromUuid | src/main/java/test/sdc/model/Vessel.java:37-39 | `fromUuid(u)` starts a builder holding `u` and no other field |
| Vessels.NewInstance | src/main/java/test/sdc/model/Vessel.java:26-29 | `newInstance` starts a builder holding the generated identifier, with name, category, visibility, creation center and last departure all unset |
| Vessels.Apply | src/main/java/test/sdc/model/Vessel.java:214-297 | a `with*` call throws iff it builds a reference or departure from null, with `DeparturePortMandatory` for a null port given to `withDeparture`, `DepartureTimeMandatory` for a null time once the port is present, and `UuidMandatory` for a null identifier given to a text overload; it keeps the identifier; only `withDeparture` sets a last departure; only `withVisibility` changes the visibility, to its argument; each successful call sets exactly its own field and leaves the others as they were: `withName` the name, `withCategory` and `withCategoryUuid` the category (the text overload as a reference to that identifier), `withCreationCenter` and `withCreationCenterUuid` the creation center, and `withDeparture` the last departure at the given port and time |
| Vessels.Build | src/main/java/test/sdc/model/Vessel.java:304-312 | a missing name, then category, then creation center fails in that order; `build` succeeds iff all three are set; an unset visibility becomes CREATION_CENTER_ONLY and a set one is kept; every other field is carried over |
| Vessels.ChainKeepsUuid | src/main/java/test/sdc/model/Vessel.java:203-297 | no chain of `with*` calls changes the identifier the builder was created with |
| Vessels.FromUuidKeepsUuid | src/main/java/test/sdc/model/Vessel.java:37-39 | `fromUuid(u)`, any successful chain, then `build` yields a vessel whose identifier is `u` |
| Vessels.DepartureOnlyFromWithDeparture | src/main/java/test/sdc/model/Vessel.java:281-297 | after a chain the last departure is present iff it was before or some step was a `withDeparture` |
| Vessels.LastVisibilityWins | src/main/java/test/sdc/model/Vessel.java:247-310 | the last `withVisibility` of a chain decides the visibility, and `build` keeps it or defaults it to CREATION_CENTER_ONLY |
| Vessels.BuildSeed | src/main/java/test/sdc/model/Vessel.java:304-312 | a builder holding every field of a vessel builds that vessel |
| Udt.From | src/main/java/test/sdc/cassandra/model/udt/VesselUdt.java:40-50 | `from` copies the name, the category identifier, the visibility and the creation-center identifier; the departure port and time are both set (to the departure's) or both null |
| Udt.ToDomainModel | src/main/java/test/sdc/cassandra/model/udt/VesselUdt.java:59-69 | the errors follow the Java evaluation order: category reference, creation-center reference, null time, null port, then the builder's name check; it succeeds iff the UDT is complete; `from` of the result is the UDT with its visibility defaulted; the result carries the given identifier |
| Udt.RoundTrip | src/main/java/test/sdc/cassandra/model/udt/VesselUdt.java:40-69 | `from(v).toDomainModel(u)` is `v` with identifier `u` |
| Udt.FromIgnoresUuid | src/main/java/test/sdc/cassandra/model/udt/VesselUdt.java:40-50 | the UDT does not depend on the vessel's identifier |
| Tables.Get | src/main/java/test/sdc/cassandra/VesselService.java:89 | a primary-key read returns a stored row with that key, and nothing iff no row has the key |
| Tables.Upsert | src/main/java/test/sdc/cassandra/VesselService.java:219 | after a save query the key reads back the saved row; every other key reads what it read before; the rows are the saved one plus the old rows under other keys; unique keys are preserved |
| Tables.Delete | src/main/java/test/sdc/cassandra/VesselService.java:254 | after a delete query the key reads nothing; every other key reads what it read before; the rows are the old rows under other keys; deleting an absent key changes nothing |
| VesselsTable.PartitionKey | src/main/java/test/sdc/cassandra/model/VesselsTable.java:50-59 | CREATION_CENTER_ONLY partitions under the creation center's identifier; the key is `_ALL` iff the vessel is ALL_CENTERS or its center's identifier is itself `_ALL` |
| VesselsTable.From | src/main/java/test/sdc/cassandra/model/VesselsTable.java:44-61 | the row's primary key is (visibility partition, given uuid); the name and category columns are the vessel's name and category identifier; the vessel column is the UDT of the vessel |
| VesselsTable.ToDomainModel | src/main/java/test/sdc/cassandra/model/VesselsTable.java:68-70 | a row decodes iff its UDT is complete, to a vessel carrying the row's uuid whose fields are the UDT's: converting it back with `VesselUdt.from` gives the row's UDT with its visibility defaulted |
| VesselsTable.RoundTrip | src/main/java/test/sdc/cassandra/model/VesselsTable.java:44-70 | `from(u, v).toDomainModel()` is `v` with identifier `u` |
| VesselsTable.FromIgnoresVesselUuid | src/main/java/test/sdc/cassandra/model/VesselsTable.java:44-49 | the row depends on the given uuid, not on the vessel's own identifier |
| VesselsTable.FromIsConsistent | src/main/java/test/sdc/cassandra/model/VesselsTable.java:44-70 | every row `from` produces decodes, and re-deriving the row from its decoding gives the row back |
| VesselsTable.ConsistentPartition | src/main/java/test/sdc/cassandra/model/VesselsTable.java:50-59 | a consistent row sits in the partition its decoded vessel's visibility selects |
| VesselsByUuidTable.From | src/main/java/test/sdc/cassandra/model/VesselsByUuidTable.java:39-44 | the partition key is the given uuid; the vessel column is the UDT of the vessel |
| VesselsByUuidTable.ToDomainModel | src/main/java/test/sdc/cassandra/model/VesselsByUuidTable.java:114-116 | a row decodes iff its UDT is complete, to a vessel carrying the row's uuid whose fields are the UDT's: converting it back with `VesselUdt.from` gives the row's UDT with its visibility defaulted |
| VesselsByUuidTable.RoundTrip | src/main/java/test/sdc/cassandra/model/VesselsByUuidTable.java:39-44 | `from(u, v).toDomainModel()` is `v` with identifier `u` |
| VesselsByUuidTable.FromIsConsistent | src/main/java/test/sdc/cassandra/model/VesselsByUuidTable.java:39-44 | every row `from` produces decodes back to a vessel that re-derives the row |
| VesselsByDeparturePortTable.From | src/main/java/test/sdc/cassandra/model/VesselsByDeparturePortTable.java:50-59 | `from` fails iff the vessel has no last departure; otherwise the key is (departure port identifier, departure time, uuid) and the vessel column is the UDT |
| VesselsByDeparturePortTable.ToDomainModel | src/main/java/test/sdc/cassandra/model/VesselsByDeparturePortTable.java:67-69 | a row decodes iff its UDT is complete, to a vessel carrying the row's uuid whose fields are the UDT's: converting it back with `VesselUdt.from` gives the row's UDT with its visibility defaulted |
| VesselsByDeparturePortTable.RoundTrip | src/main/java/test/sdc/cassandra/model/VesselsByDeparturePortTable.java:50-69 | for a vessel with a last departure, `from(u, v).toDomainModel()` is `v` with identifier `u` |
| Store.Execute | src/main/java/test/sdc/cassandra/VesselService.java:222 | a query touches only the table its entity belongs to; there a save query upserts its row, which the row's key then reads, and a delete query deletes by the row's key, which then reads nothing |
| Store.ExecuteBatch | src/main/java/test/sdc/cassandra/VesselService.java:222 | a batch leaves every table that none of its queries touches as it was |
| Store.ExecutePreservesValid | src/main/java/test/sdc/cassandra/VesselService.java:222 | saving a row that `from` could produce, or deleting any row, keeps unique keys and consistent rows in every table |
| Store.ExecuteBatchPreservesValid | src/main/java/test/sdc/cassandra/VesselService.java:222 | a batch of such queries keeps the store valid |
| Store.ExecuteBatchOfTwo | src/main/java/test/sdc/cassandra/VesselService.java:222 | a batch of two queries runs the first, then the second |
| VesselTableType.IsRelevant | src/main/java/test/sdc/cassandra/VesselTableType.java:65-67 | no entry overrides the default, so every entry is relevant to every vessel |
| VesselTableType.GetEntity | src/main/java/test/sdc/cassandra/VesselTableType.java:14-26 | VESSELS gives the `vessels` row and VESSELS_BY_UUID the `vessels_by_uuid` row of `from`; no entry gives a departure-port row; each entity is consistent |
| VesselTableType.Batch | src/main/java/test/sdc/cassandra/VesselService.java:214-221 | the batch has one query per relevant registry entry, in registry order, all saves or all deletes, none of them on the departure-port table |
| VesselTableType.BatchOfRegistry | src/main/java/test/sdc/cassandra/VesselTableType.java:14-67 | over the registry, every entry is relevant and the batch is exactly the `vessels` row, then the `vessels_by_uuid` row |
| VesselService.Save | src/main/java/test/sdc/cassandra/VesselService.java:213-223 | `save(uuid, v)` amounts to one upsert into `vessels` and one into `vessels_by_uuid`; afterwards the derived `vessels` key and the uuid read back the derived rows; every other key of both tables reads as before, including the vessel's rows under an old partition; the departure-port table is unchanged; validity is preserved |
| VesselService.Delete | src/main/java/test/sdc/cassandra/VesselService.java:248-258 | `delete(uuid, v)` amounts to one delete from each of `vessels` and `vessels_by_uuid`; afterwards the keys derived from `v` read nothing; every other key reads as before; the departure-port table is unchanged; validity is preserved |
| VesselService.Find | src/main/java/test/sdc/cassandra/VesselService.java:86-92 | a malformed identifier throws; the answer is empty iff no `vessels_by_uuid` row has the key; otherwise it is that row decoded, or its decoding error; a found vessel carries the identifier; in a valid store `find` never throws on a well-formed identifier |
| VesselService.Add | src/main/java/test/sdc/cassandra/VesselService.java:186-191 | `add` amounts to one upsert of the vessel's row, under the generated uuid, into each of `vessels` and `vessels_by_uuid`, so every other row is kept; afterwards `find` of the generated uuid returns the vessel under that uuid; other identifiers read as before; validity is preserved |
| VesselService.Update | src/main/java/test/sdc/cassandra/VesselService.java:199-204 | `update` succeeds iff the vessel's identifier is a UUID, inserting it when absent; it amounts to one upsert of the vessel's row into each of `vessels` and `vessels_by_uuid`, so every other row is kept; afterwards `find` returns exactly the vessel; validity is preserved |
| VesselService.Remove | src/main/java/test/sdc/cassandra/VesselService.java:230-239 | a malformed identifier or a read failure throws; an absent vessel leaves the store unchanged; a present one is deleted with the keys of its stored state; afterwards `find` answers empty |
| VesselService.VesselsRowsDecode | src/main/java/test/sdc/cassandra/VesselService.java:76-78 | in a valid store every row read from `vessels` converts |
| VesselService.Partition | src/main/java/test/sdc/cassandra/VesselService.java:119-121 | a partition read returns exactly the rows with that partition key, each as often as stored |
| VesselService.FindAllRows | src/main/java/test/sdc/cassandra/VesselService.java:69-74 | `visibility IN ('_ALL', center)` returns exactly the rows in either partition, as a multiset the stored rows of the two |
| VesselService.FindAll | src/main/java/test/sdc/cassandra/VesselService.java:66-79 | the vessels listed are exactly the decodings of the rows in partitions `_ALL` and the center, one per row read; in a valid store `findAll` never throws |
| VesselService.NameFragmentRows | src/main/java/test/sdc/cassandra/VesselService.java:117-125 | one partition's rows whose name contains the fragment |
| VesselService.FindByNameFragment | src/main/java/test/sdc/cassandra/VesselService.java:100-109 | the vessels are exactly the decodings of listed rows whose name contains the fragment; the result is the global partition's matches followed by the center's, in that order and with their multiplicity; in a valid store it never throws |
| VesselService.CategoryRows | src/main/java/test/sdc/cassandra/VesselService.java:150-158 | one partition's rows of the given category |
| VesselService.FindByCategory | src/main/java/test/sdc/cassandra/VesselService.java:133-142 | the vessels are exactly the decodings of listed rows of that category; the result is the global partition's matches followed by the center's, in that order and with their multiplicity; in a valid store each result has that category |
| VesselService.CategoryOfDecodedRow | src/main/java/test/sdc/cassandra/VesselService.java:150-158 | in a valid store a row of the category column decodes to a vessel of that category |
| VesselService.ByPortRowsDecode | src/main/java/test/sdc/cassandra/VesselService.java:176-178 | in a valid store every departure-port row decodes to a vessel whose last departure is the row's port and time |
| VesselService.DeparturePortRows | src/main/java/test/sdc/cassandra/VesselService.java:168-173 | the query reads exactly the rows of that port departed strictly after the given instant, each as often as stored |
| VesselService.FindByDeparturePort | src/main/java/test/sdc/cassandra/VesselService.java:165-179 | the vessels are exactly the decodings of rows of that port departed strictly after `now - DEPARTURE_RANGE` (20 h); one vessel per row read; in a valid store each has such a last departure |
| ServiceProperties.AddIgnoresVesselUuid | src/main/java/test/sdc/cassandra/VesselService.java:186-191 | `add` stores the same rows whatever identifier the vessel carries |
| ServiceProperties.SaveWritesOneByUuidRow | src/main/java/test/sdc/cassandra/VesselService.java:213-223 | saving a vessel whose identifier has no `vessels_by_uuid` row leaves exactly one row for it there |
| ServiceProperties.SaveWritesOneRowEach | src/main/java/test/sdc/cassandra/VesselService.java:213-223 | saving a vessel with a fresh identifier leaves exactly one `vessels` row and one `vessels_by_uuid` row for it, and no departure-port row changes |
| ServiceProperties.OrphanRows | src/main/java/test/sdc/cassandra/VesselService.java:213-223 | saving a local vessel and then saving it as global leaves both `vessels` rows, and the store valid |
| ServiceProperties.ListedRowIsFound | src/main/java/test/sdc/cassandra/VesselService.java:66-79 | in a valid store, the vessel of every row a center may list appears in its `findAll` |
| ServiceProperties.OrphanAfterVisibilityChange | src/main/java/test/sdc/cassandra/VesselService.java:213-223 | after saving a local vessel and then saving it as global, both rows exist; the center lists it twice, and `find` returns only the global state |
| ServiceProperties.RemoveKeepsOrphanRow | src/main/java/test/sdc/cassandra/VesselService.java:230-258 | after a visibility change from local to global, `remove` succeeds, `find` then answers nothing, the local `vessels` row is still stored, and the store stays valid |
| ServiceProperties.RemoveLeavesOrphan | src/main/java/test/sdc/cassandra/VesselService.java:230-258 | removing it afterwards deletes only the keys of the stored state: `find` answers empty, but the center still lists the old local row |
| ServiceProperties.FindAllVisibility | src/main/java/test/sdc/cassandra/VesselService.java:66-79 | in a valid store, after a save, `findAll(c)` lists the vessel iff it is global, belongs to `c`, or belongs to a center named `_ALL` |
| ServiceProperties.AllNamedCenterSharesGlobalPartition | src/main/java/test/sdc/cassandra/model/VesselsTable.java:77-79 | a local vessel of a center whose identifier is `_ALL` is listed to every center |
| ServiceProperties.NameFragmentTwiceForAllNamedCenter | src/main/java/test/sdc/cassandra/VesselService.java:100-109 | for a center named `_ALL`, the name search returns the global matches twice in a row, while `findAll` reads the partition once |
| ServiceProperties.RemoveTwice | src/main/java/test/sdc/cassandra/VesselService.java:230-239 | a second `remove` of an identifier succeeds and changes nothing |
| ServiceProperties.RemoveAfterUpdate | src/main/java/test/sdc/cassandra/VesselService.java:230-258 | `remove` after `update(v)` clears the uuid from `vessels_by_uuid` and removes the `vessels` row derived from `v`, keeping the store valid |
| ServiceProperties.Perform | src/main/java/test/sdc/cassandra/VesselService.java:186-239 | no public write call touches the departure-port table, and each keeps the store valid |
| ServiceProperties.PerformAllKeepsDeparturePortTable | src/main/java/test/sdc/cassandra/VesselTableType.java:14-26 | any sequence of calls leaves the departure-port table as it was and keeps the store valid |
| ServiceProperties.NoDeparturesEverFound | src/main/java/test/sdc/cassandra/VesselService.java:165-179 | from an empty store, after any calls, `findByDeparturePort` returns nothing for every port and instant |

## Left out

- The model's store accepts an empty partition key, which Cassandra rejects ("Key may not be empty"). A center or port whose identifier is empty therefore reads and writes partition `""` in the model, where the program throws.
- Session, mapper, codec registration, consistency levels and logging (`setSession`, `postConstruct`, `LOGGER`) are I/O. The store is a value passed in and returned.
- `CassandraSessionProducer` is connection management and is not part of this model.
- `UUID.randomUUID` in `add` and `newInstance`, and `Instant.now` in `findByDeparturePort`, are parameters (`generated`, `now`).
- Uuids.FromString: accepts exactly the canonical lower-case text. Java's `UUID.fromString` also accepts upper case and shortened groups, and the stored text is then re-printed canonically; that leniency is not modelled.
- Time is whole milliseconds. The `Instant` to `Date` truncation in `VesselUdt.from` is therefore the identity.
- Row order within a partition, the clustering order, is not fixed. `VesselService.FindAllRows`, `VesselService.Partition` and `VesselService.DeparturePortRows` state the rows read as a multiset. The query results state membership and one vessel per row read; `findByNameFragment` and `findByCategory` also state the order of their two partition reads. No contract states positions within one partition.
- VesselService.FindAllRows: models `IN` with a repeated value as reading the partition once. This is an assumption about the store, which is not shown.
- VesselService.NameFragmentRows: `LIKE '%f%'` is modelled as plain substring containment. Wildcards inside the fragment and the secondary index's case behaviour are not modelled.
- VesselService.CategoryRows: the `vessels_by_category` materialised view is modelled as a category filter over the `vessels` partition. Its definition is not shown.
- Batches are total and sequential. Partial failure across partitions is not modelled.
- The builder returns its internal instance from `build()`, so later `with*` calls would alias the built vessel. `build` is modelled functionally.
- `equals` of every value class is Dafny's structural datatype equality. `hashCode` and `toString` (a reference prints as its identifier) are not modelled.
- `fromUuid(null)` builds a vessel with a null identifier. Vessel identifiers are modelled as non-null strings.
- Null service arguments are not modelled: every service argument is a non-null value. In Java, `find(null)` and `remove(null)` throw in `UUID.fromString`. `findAll(null)`, `findByNameFragment(null, f)`, `findByCategory(null, c)` and `findByCategory(c, null)` throw in `getUuid()`. `findByDeparturePort(null)` and `add(null)` throw too. `findByNameFragment(c, null)` does not throw: `String.format` prints the null fragment as `null`, so it searches for that text.
- Null row columns are not modelled: a row's key columns and its `vessel` UDT column are always present. A row whose `vessel` column is null would make `toDomainModel` throw. The UDT's own fields are nullable and are modelled with `Option`.
- `VesselTableType.getTableClass` is replaced by the entity's constructor, which selects the table.
- Errors are modelled by cause only. Exception classes and messages are not modelled.
