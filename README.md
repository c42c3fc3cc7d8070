# GeoPackage catalog orchestration, modelled in Dafny

This project models the catalog orchestration layer of geopackage-core-java. That layer is the
class `GeoPackageImpl` in `mil.nga.giat.geopackage.factory`. A GeoPackage (OGC 12-128) is one
SQLite file. It holds user tables and a set of catalog tables that describe them:

- `gpkg_spatial_ref_sys` holds the coordinate systems.
- `gpkg_contents` has one row per user table.
- `gpkg_geometry_columns` describes feature tables.
- `gpkg_tile_matrix_set` describes tile tables.
- Optional tables and views exist for metadata, data columns, extensions, and the SQL/MM and
  SF/SQL variants.

`GeoPackageImpl` does the following:

- creates optional catalog tables on demand, and only once;
- creates a feature or tile table together with its catalog rows, dropping the table again if the
  catalog inserts fail;
- looks up coordinate systems by id;
- lists feature and tile tables;
- deletes tables, either loudly or quietly;
- hands out strict accessors for the SQL/MM and SF/SQL variants, which fail when the view is
  missing.

The model has five modules.

- `Catalog` (catalog.dfy) holds the row types, the column lists of new user tables, the catalog
  table kinds, and the Java exceptions. Exceptions are `SQLException`, `RuntimeException`, and
  `GeoPackageException` with an optional cause. The storage engine is an explicit `Engine` value
  with two parts:
  - the exception each DAO or table-creator call throws, if any;
  - the number of statements each catalog create script runs.
- `CatalogState` (catalog_state.dfy) holds the database as a value `Db`: user tables, SRS rows,
  contents rows, descriptor rows in rowid order, and the provisioned catalog tables. It also
  defines:
  - `Valid`, the GeoPackage's cross-table invariant;
  - one function per engine step: an existence check, a create script, `CREATE TABLE`, an SRS
    query, a row insert, the cascading delete, and the name queries.
- `Operations` (operations.dfy) has one function per `GeoPackageImpl` method. Each says what the
  method does to the database and what it returns or throws.
- `Factory` (geopackage_impl.dfy) holds `class GeoPackageImpl`. It keeps the database state in
  fields. Its methods run the Java steps one by one and update those fields in place. Each method
  is proved to end in exactly the state and result that the matching `Operations` function gives.
- `Properties` (properties.dfy) and `Scenarios` (scenarios.dfy) hold the lemmas, including:
  - exactly when each workflow succeeds;
  - what a failure leaves behind;
  - which exception the caller sees;
  - that `Valid` is preserved;
  - that ensure methods are idempotent;
  - that listings agree with creation and deletion;
  - worked examples with a polygon layer "parks" in EPSG:4326, a tile pyramid "basemap" with contents
    in EPSG:3857 and its matrix set in EPSG:4326, SRS id 999999, which does not exist, and
    feature tables named like catalog tables.

Behaviour of the code worth noting:

- A runtime exception in the try block of a `...WithMetadata` workflow is rethrown unchanged.
  Only a storage exception is annotated with the table name (`FeatureInsertFaultRethrown`,
  `ContentsInsertThrowsUnchecked`).
- When the descriptor insert fails and the quiet delete fails too, the table and its contents
  row both remain. The descriptor row is missing, so the listing does not name the table
  (`CleanupFailsLeavesOrphan`, `OrphanNotListed`).
- A storage failure while reading an SRS is reported without its cause. The Java catch clause
  does not pass the caught exception on (`Operations.GetSrs`).
- Catalog tables provisioned before a workflow fails stay provisioned (`FeatureFailureRestores`,
  `TileFailureRestores`).
- A user table cannot take the name of a catalog table or view that exists, including one the
  workflow has just provisioned. CREATE TABLE fails on it before the try block
  (`CatalogState.NameTaken`, `CatalogNamesRejected`).
- Table names are matched as SQLite matches identifiers, ignoring ASCII case (`Catalog.SameName`).
  "PARKS" clashes with an existing "parks", and "GPKG_CONTENTS" with gpkg_contents
  (`UpperCaseNameClashes`, `UpperCaseCatalogNameClashes`).
- The existence checks look a table up by name, ignoring ASCII case. A user table that took the name of a catalog
  table that was not yet provisioned counts as that table. The catalog table is then never
  created, and workflows that need it fail at the insert (`CatalogState.Present`,
  `UserTableShadowsCatalogTable`).
- `createTable`, `createFeatureTable`, `createTileTable` and `deleteTable` declare no checked
  exception. Under `ThrowsAsDeclared`, neither `deleteTable` nor the two workflows ever hand a
  bare storage exception to the caller.

## Model

Source paths are relative to the repository root; `GeoPackageImpl.java` stands for
`src/main/java/mil/nga/giat/geopackage/factory/GeoPackageImpl.java`.

| member | source | states |
|---|---|---|
| Catalog.Rethrow | src/main/java/mil/nga/giat/geopackage/factory/GeoPackageImpl.java:297-305 | What a catch clause hands on. A storage exception comes back wrapped in a GeoPackageException that has the message and the original as its cause. Any other exception comes back unchanged. The result is never a storage exception. |
| Catalog.DigitsValue | src/main/java/mil/nga/giat/geopackage/factory/GeoPackageImpl.java:442-448 | The decimal digits produced for a non-negative number denote exactly that number. |
| Catalog.LongToString | src/main/java/mil/nga/giat/geopackage/factory/GeoPackageImpl.java:442-448 | The SRS id as Java prints it in the messages: a minus sign exactly when the id is negative, then decimal digits with no leading zero whose value is the id's magnitude. |
| CatalogState.Dropped | src/main/java/mil/nga/giat/geopackage/factory/GeoPackageImpl.java:593-596 | The state after the contents DAO's cascading delete: the user table, its contents row, and every geometry columns and tile matrix set row naming it are gone. All other rows stay; SRSs and provisioned catalog tables are unchanged. |
| Operations.EnsureTable | src/main/java/mil/nga/giat/geopackage/factory/GeoPackageImpl.java:232-245 | `create<Kind>Table()` can only add its own kind to the catalog. It returns true exactly when this call made the table exist. A table or view found by that name, even a user table that took it, is left alone and gives false. A failed existence check or create script creates nothing and throws "Failed to check if ... table exists and create it", wrapping the storage exception as its cause and passing any other exception on unchanged. |
| Operations.GetSrs | src/main/java/mil/nga/giat/geopackage/factory/GeoPackageImpl.java:437-452 | Succeeds exactly when the query does not fail and the id exists, and returns that row. A missing id gives "Spatial Reference System could not be found. SRS ID: n" with no cause. A failed query that throws a storage exception gives "Failed to retrieve Spatial Reference System. SRS ID: n" without the caught exception as cause; any other exception passes unchanged. |
| Operations.DeleteTable | src/main/java/mil/nga/giat/geopackage/factory/GeoPackageImpl.java:593-596 | Succeeds exactly when the cascading delete does not throw, leaving the `Dropped` state. Otherwise it rethrows that exception and changes nothing. When the engine throws only what the Java signatures declare (`ThrowsAsDeclared`), the exception is never a bare storage exception. |
| Operations.DeleteTableQuietly | src/main/java/mil/nga/giat/geopackage/factory/GeoPackageImpl.java:602-608 | Always returns normally. The state is that of `deleteTable`: either unchanged or the `Dropped` state. |
| Operations.VerifyTableExists | src/main/java/mil/nga/giat/geopackage/factory/GeoPackageImpl.java:632-644 | Succeeds exactly when the existence check works and a table or view of that name is there, the catalog table or a user table that took its name. A missing one gives "Table or view does not exist for: <class>". A failing check gives the wrapped "Failed to detect ..." error. |
| Operations.ListFeatureTables | src/main/java/mil/nga/giat/geopackage/factory/GeoPackageImpl.java:117-132 | Succeeds exactly when the existence check works and, if a table of that name is present, the name query works. An absent gpkg_geometry_columns gives the empty list. Otherwise the result is one name per descriptor row, in row order (see Left out). A failing existence check or names query throws "Failed to retrieve feature tables" with the storage exception as cause; any other exception passes unchanged. Errors are never bare storage exceptions. |
| Operations.ListTileTables | src/main/java/mil/nga/giat/geopackage/factory/GeoPackageImpl.java:138-152 | The same for gpkg_tile_matrix_set, with the message "Failed to retrieve tile tables". |
| Operations.AbandonTable | src/main/java/mil/nga/giat/geopackage/factory/GeoPackageImpl.java:297-305 | The catch clauses: the quiet delete of the new table, then the original exception rethrown, or wrapped with "Failed to create table and metadata: <name>" if it is a storage exception. The cleanup only removes things and never touches SRSs or the catalog. |
| Operations.FeatureMetadata | src/main/java/mil/nga/giat/geopackage/factory/GeoPackageImpl.java:278-305 | The feature try block. On success the table had no contents row; exactly one FEATURES contents row and the caller's descriptor, linked to the contents SRS, are added. On failure no descriptor row is left. |
| Operations.CreateFeatureTableWithMetadata | src/main/java/mil/nga/giat/geopackage/factory/GeoPackageImpl.java:259-308 | An unknown or unreadable SRS fails before any change. On success the SRS existed and the name was taken neither by a user table nor by any catalog table, including the just provisioned gpkg_geometry_columns. Only gpkg_geometry_columns can join the catalog. The new state has the table with an "id" primary key and the nullable geometry column, a FEATURES contents row carrying the bounding box and the SRS, and the descriptor with that SRS id appended; tile matrix sets are unchanged. The provisioned gpkg_geometry_columns is in the catalog. No failure leaves a new descriptor row, and when the engine throws only what the Java signatures declare, no failure is a bare storage exception. |
| Operations.TileMetadata | src/main/java/mil/nga/giat/geopackage/factory/GeoPackageImpl.java:395-426 | The tile try block. On success a TILES contents row and a tile matrix set row with its own bounding box and SRS are added, and nothing else. On failure no tile matrix set row is left. |
| Operations.CreateTileTableWithMetadata | src/main/java/mil/nga/giat/geopackage/factory/GeoPackageImpl.java:376-429 | The contents SRS is resolved first, then the matrix set SRS; a failure of either changes nothing. Only the two tile catalog tables can join the catalog. On success the name was taken by no user or catalog table, and there is the table with the required tile columns, a TILES contents row with the contents box and contents SRS, and a tile matrix set row with the other box and the other SRS; geometry columns are unchanged. When the engine throws only what the Java signatures declare, no failure is a bare storage exception. |
| Factory.GeoPackageImpl.constructor | src/main/java/mil/nga/giat/geopackage/factory/GeoPackageImpl.java:80-87 | The handle is opened on the given database. |
| Factory.GeoPackageImpl.GetFeatureTables | src/main/java/mil/nga/giat/geopackage/factory/GeoPackageImpl.java:117-132 | Returns the specified listing. It is empty when no table of that name exists, and otherwise a name is listed exactly when some descriptor row carries it. |
| Factory.GeoPackageImpl.GetTileTables | src/main/java/mil/nga/giat/geopackage/factory/GeoPackageImpl.java:138-152 | The same for tile tables. |
| Factory.GeoPackageImpl.CreateCatalogTable | src/main/java/mil/nga/giat/geopackage/factory/GeoPackageImpl.java:232-245 | The shared body of the eight ensure methods, run with a `created` flag. It ends in `EnsureTable`'s state and result: the catalog is unchanged or gains the kind, and the result is true exactly when the kind was added. |
| Factory.GeoPackageImpl.CreateGeometryColumnsTable | src/main/java/mil/nga/giat/geopackage/factory/GeoPackageImpl.java:232-245 | Ends in `EnsureTable`'s state and result for gpkg_geometry_columns. |
| Factory.GeoPackageImpl.CreateTileMatrixSetTable | src/main/java/mil/nga/giat/geopackage/factory/GeoPackageImpl.java:322-335 | The same for gpkg_tile_matrix_set. |
| Factory.GeoPackageImpl.CreateTileMatrixTable | src/main/java/mil/nga/giat/geopackage/factory/GeoPackageImpl.java:349-362 | The same for gpkg_tile_matrix. |
| Factory.GeoPackageImpl.CreateDataColumnsTable | src/main/java/mil/nga/giat/geopackage/factory/GeoPackageImpl.java:466-479 | The same for gpkg_data_columns. |
| Factory.GeoPackageImpl.CreateDataColumnConstraintsTable | src/main/java/mil/nga/giat/geopackage/factory/GeoPackageImpl.java:493-506 | The same for gpkg_data_column_constraints. |
| Factory.GeoPackageImpl.CreateMetadataTable | src/main/java/mil/nga/giat/geopackage/factory/GeoPackageImpl.java:520-533 | The same for gpkg_metadata. |
| Factory.GeoPackageImpl.CreateMetadataReferenceTable | src/main/java/mil/nga/giat/geopackage/factory/GeoPackageImpl.java:547-560 | The same for gpkg_metadata_reference. |
| Factory.GeoPackageImpl.CreateExtensionsTable | src/main/java/mil/nga/giat/geopackage/factory/GeoPackageImpl.java:574-587 | The same for gpkg_extensions. |
| Factory.GeoPackageImpl.VerifyTableExists | src/main/java/mil/nga/giat/geopackage/factory/GeoPackageImpl.java:632-644 | Changes nothing. Succeeds exactly when the check works and a table or view of that name exists; the errors are those of `Operations.VerifyTableExists`. |
| Factory.GeoPackageImpl.GetSpatialReferenceSystemSqlMmDao | src/main/java/mil/nga/giat/geopackage/factory/GeoPackageImpl.java:166-172 | Changes nothing. Returns the DAO for st_spatial_ref_sys exactly when the check works and the view exists; otherwise it returns the verification error. |
| Factory.GeoPackageImpl.GetSpatialReferenceSystemSfSqlDao | src/main/java/mil/nga/giat/geopackage/factory/GeoPackageImpl.java:178-184 | The same for spatial_ref_sys. |
| Factory.GeoPackageImpl.GetGeometryColumnsSqlMmDao | src/main/java/mil/nga/giat/geopackage/factory/GeoPackageImpl.java:208-214 | The same for st_geometry_columns. |
| Factory.GeoPackageImpl.GetGeometryColumnsSfSqlDao | src/main/java/mil/nga/giat/geopackage/factory/GeoPackageImpl.java:220-226 | The same for geometry_columns. |
| Factory.GeoPackageImpl.DeleteTable | src/main/java/mil/nga/giat/geopackage/factory/GeoPackageImpl.java:593-596 | Ends in `Operations.DeleteTable`'s state and result. |
| Factory.GeoPackageImpl.DeleteTableQuietly | src/main/java/mil/nga/giat/geopackage/factory/GeoPackageImpl.java:602-608 | Returns normally and leaves the state either unchanged or `Dropped`. |
| Factory.GeoPackageImpl.GetSrs | src/main/java/mil/nga/giat/geopackage/factory/GeoPackageImpl.java:437-452 | Changes nothing. Succeeds exactly when the query works and the id exists, and then returns that row. |
| Factory.GeoPackageImpl.CreateFeatureTable | src/main/java/mil/nga/giat/geopackage/factory/GeoPackageImpl.java:251-253 | Ends in the table creator's `CreateTable` state and result. |
| Factory.GeoPackageImpl.CreateTileTable | src/main/java/mil/nga/giat/geopackage/factory/GeoPackageImpl.java:368-370 | The same for tile tables. |
| Factory.GeoPackageImpl.CreateFeatureTableWithMetadata | src/main/java/mil/nga/giat/geopackage/factory/GeoPackageImpl.java:259-308 | Run step by step, it ends in `Operations.CreateFeatureTableWithMetadata`'s state and result. |
| Factory.GeoPackageImpl.CreateTileTableWithMetadata | src/main/java/mil/nga/giat/geopackage/factory/GeoPackageImpl.java:376-429 | Run step by step, it ends in `Operations.CreateTileTableWithMetadata`'s state and result. |
| Properties.EnsureTableIdempotent | src/main/java/mil/nga/giat/geopackage/factory/GeoPackageImpl.java:232-245 | After an ensure method returns normally, calling it again changes nothing and returns false. |
| Properties.DeleteTableKeepsValid | src/main/java/mil/nga/giat/geopackage/factory/GeoPackageImpl.java:593-608 | Both deletes keep a well-formed GeoPackage well-formed, whether or not they fail. |
| Properties.DeletedTableNotListed | src/main/java/mil/nga/giat/geopackage/factory/GeoPackageImpl.java:593-596 | After a successful delete, neither listing names the table. |
| Properties.FeaturePreludeFailure | src/main/java/mil/nga/giat/geopackage/factory/GeoPackageImpl.java:262-276 | If the SRS lookup, the ensure call or the table creation fails, the workflow fails. Nothing changes except that gpkg_geometry_columns may have been provisioned. |
| Properties.FeatureSuccessIff | src/main/java/mil/nga/giat/geopackage/factory/GeoPackageImpl.java:259-308 | On a well-formed GeoPackage the feature workflow succeeds if and only if all of these hold: the SRS exists; gpkg_geometry_columns is or gets provisioned (it is not when a user table already took its name); the name, compared ignoring ASCII case, is taken neither by a user table nor by a catalog table present after provisioning; no engine call on the way fails. |
| Properties.FeatureMetadataFailureRestores | src/main/java/mil/nga/giat/geopackage/factory/GeoPackageImpl.java:278-305 | A failed try block restores the state before the table was created. When the cleanup delete also fails, it leaves only the orphaned table and perhaps its contents row. |
| Properties.FeatureFailureRestores | src/main/java/mil/nga/giat/geopackage/factory/GeoPackageImpl.java:259-308 | Any failed feature workflow leaves the GeoPackage as it was, apart from a provisioned gpkg_geometry_columns. The only exception is a failing cleanup delete, which leaves the orphan. |
| Properties.FeatureInsertFaultRethrown | src/main/java/mil/nga/giat/geopackage/factory/GeoPackageImpl.java:297-305 | When the contents or descriptor insert throws, the caller gets an unchecked exception unchanged, or a storage exception wrapped with "Failed to create table and metadata: <name>". |
| Properties.FeatureCreateTableFailureKeepsState | src/main/java/mil/nga/giat/geopackage/factory/GeoPackageImpl.java:266-276 | A failure to create the user table, including a clash with a user or catalog table name, is reported as is, with no cleanup. An existing table of that name keeps its table, contents and descriptor rows. |
| Properties.FeatureKeepsValid | src/main/java/mil/nga/giat/geopackage/factory/GeoPackageImpl.java:259-308 | The feature workflow keeps a well-formed GeoPackage well-formed, on every outcome. |
| Properties.CreatedFeatureTableListed | src/main/java/mil/nga/giat/geopackage/factory/GeoPackageImpl.java:117-132 | After a successful feature workflow, `getFeatureTables()` lists the earlier names followed by the new one, with the names query in row order (see Left out). |
| Properties.TilePreludeFailure | src/main/java/mil/nga/giat/geopackage/factory/GeoPackageImpl.java:383-393 | If either SRS lookup, either ensure call or the table creation fails, the workflow fails. Nothing changes except that the two tile catalog tables may have been provisioned. |
| Properties.TileSuccessIff | src/main/java/mil/nga/giat/geopackage/factory/GeoPackageImpl.java:376-429 | The tile workflow succeeds if and only if all of these hold: both SRSs exist; gpkg_tile_matrix_set is or gets provisioned (it is not when a user table already took its name); the name, compared ignoring ASCII case, is taken neither by a user table nor by a catalog table present after provisioning; no engine call fails. Whether gpkg_tile_matrix's script ran any statement does not matter. |
| Properties.TileMetadataFailureRestores | src/main/java/mil/nga/giat/geopackage/factory/GeoPackageImpl.java:395-426 | A failed tile try block restores the state before the table was created, or leaves only the orphan when the delete fails. |
| Properties.TileFailureRestores | src/main/java/mil/nga/giat/geopackage/factory/GeoPackageImpl.java:376-429 | Any failed tile workflow leaves the GeoPackage as it was, apart from provisioned catalog tables; the only exception is a failing cleanup delete, which leaves the orphan. |
| Properties.TileInsertFaultRethrown | src/main/java/mil/nga/giat/geopackage/factory/GeoPackageImpl.java:419-426 | A failing contents or tile matrix set insert reaches the caller unchanged if unchecked, or wrapped with the table name if it is a storage exception. |
| Properties.TileCreateTableFailureKeepsState | src/main/java/mil/nga/giat/geopackage/factory/GeoPackageImpl.java:390-393 | A failure to create the user tile table, including a clash with a user or catalog table name, is reported as is, with no cleanup. |
| Properties.TileSrsIndependent | src/main/java/mil/nga/giat/geopackage/factory/GeoPackageImpl.java:383-417 | The contents row carries the contents SRS id and the tile matrix set row the matrix set SRS id, each as given. |
| Properties.TileKeepsValid | src/main/java/mil/nga/giat/geopackage/factory/GeoPackageImpl.java:376-429 | The tile workflow keeps a well-formed GeoPackage well-formed, on every outcome. |
| Properties.ShadowedGeometryColumnsBlocksFeatures | src/main/java/mil/nga/giat/geopackage/factory/GeoPackageImpl.java:232-245 | On a well-formed GeoPackage with a user table named gpkg_geometry_columns, `createGeometryColumnsTable()` returns false and changes nothing. Every feature workflow fails, and if its cleanup works the GeoPackage is unchanged. |
| Properties.CreatedTileTableListed | src/main/java/mil/nga/giat/geopackage/factory/GeoPackageImpl.java:138-152 | After a successful tile workflow, `getTileTables()` lists the earlier names followed by the new one, with the names query in row order (see Left out). |
| Scenarios.CreateParks | src/main/java/mil/nga/giat/geopackage/factory/GeoPackageImpl.java:259-308 | "parks" with a POLYGON column "geom" in EPSG:4326 is created with its FEATURES row and descriptor. Feature tables list ["parks"] and tile tables list []. |
| Scenarios.UnknownSrs | src/main/java/mil/nga/giat/geopackage/factory/GeoPackageImpl.java:437-452 | SRS id 999999 fails with the not-found error and changes nothing. Nothing is listed. |
| Scenarios.SrsNotFoundMessageText | src/main/java/mil/nga/giat/geopackage/factory/GeoPackageImpl.java:446-449 | The not-found message for id 999999 reads "Spatial Reference System could not be found. SRS ID: 999999". |
| Scenarios.CreateParksTwice | src/main/java/mil/nga/giat/geopackage/factory/GeoPackageImpl.java:251-253 | A second "parks" fails at CREATE TABLE and changes nothing. |
| Scenarios.TileTableTakesCatalogName | src/main/java/mil/nga/giat/geopackage/factory/GeoPackageImpl.java:376-429 | On a fresh GeoPackage, where gpkg_geometry_columns is absent, a tile table named "gpkg_geometry_columns" is created. |
| Scenarios.UserTableShadowsCatalogTable | src/main/java/mil/nga/giat/geopackage/factory/GeoPackageImpl.java:232-245 | After that, `createGeometryColumnsTable()` finds the tile table by name and returns false without creating anything. A feature workflow then fails, and its cleanup leaves the GeoPackage as it was. |
| Scenarios.CatalogNamesRejected | src/main/java/mil/nga/giat/geopackage/factory/GeoPackageImpl.java:266-276 | A feature table named "gpkg_contents", or "gpkg_geometry_columns" (provisioned just before), fails at CREATE TABLE; only gpkg_geometry_columns has been provisioned. |
| Scenarios.UpperCaseNameClashes | src/main/java/mil/nga/giat/geopackage/factory/GeoPackageImpl.java:266-276 | After "parks" is created, a feature table named "PARKS" fails at CREATE TABLE and leaves the GeoPackage unchanged. |
| Scenarios.UpperCaseCatalogNameClashes | src/main/java/mil/nga/giat/geopackage/factory/GeoPackageImpl.java:266-276 | On a fresh GeoPackage a feature table named "GPKG_CONTENTS" fails at CREATE TABLE; only gpkg_geometry_columns has been provisioned. |
| Scenarios.CreateBasemap | src/main/java/mil/nga/giat/geopackage/factory/GeoPackageImpl.java:376-429 | "basemap" has its contents in EPSG:3857 and its matrix set in EPSG:4326, and both tile catalog tables are provisioned. |
| Scenarios.DescriptorInsertFails | src/main/java/mil/nga/giat/geopackage/factory/GeoPackageImpl.java:300-305 | A storage failure of the descriptor insert drops the table and its contents row again and reports the wrapped error. |
| Scenarios.ContentsInsertThrowsUnchecked | src/main/java/mil/nga/giat/geopackage/factory/GeoPackageImpl.java:419-421 | An unchecked exception from the contents insert reaches the caller unchanged, and the table is gone. |
| Scenarios.CleanupFailsLeavesOrphan | src/main/java/mil/nga/giat/geopackage/factory/GeoPackageImpl.java:602-608 | When the cleanup delete fails too, the original error is reported. The table and its contents row remain, with no descriptor row. |
| Scenarios.OrphanNotListed | src/main/java/mil/nga/giat/geopackage/factory/GeoPackageImpl.java:117-132 | That orphan table is not named by `getFeatureTables()`. |
| Scenarios.SqlMmViewMissing | src/main/java/mil/nga/giat/geopackage/factory/GeoPackageImpl.java:632-644 | On a fresh GeoPackage the SQL/MM view is reported missing, not created. |
| Scenarios.ExtensionsCreatedOnce | src/main/java/mil/nga/giat/geopackage/factory/GeoPackageImpl.java:574-587 | gpkg_extensions is created by the first call, which returns true; the second returns false. |

## Left out

- DAO creation (`createDao`, DaoManager) and the DAO getters that only create a DAO are not
  modelled. A DAO is a `Dao` value naming its catalog table, and DAO creation never fails in the
  model.
- `close`, `getDatabase` and `getConnectionSource` only hand out or close connection handles and
  are not modelled.
- The SQL of the table creator, the DAOs and the contents DAO's cascading delete is not part of
  this model; TileTable.java and the DAO classes are not part of it either. Their effects are
  modelled as engine steps:
  - a create script adds its catalog table when it runs statements;
  - `CREATE TABLE` fails on a name used by a user table or a provisioned catalog table or view,
    compared ignoring ASCII case;
  - the existence check matches names ignoring ASCII case, as SQLite's name lookup does;
  - an insert fails when its catalog table is missing or the table name is already used;
  - the cascading delete removes the table, its contents row and its descriptor rows, and on
    failure changes nothing.
- The texts of the engine's own errors (`NoSuchTable`, `UniqueViolation`, `TableAlreadyExists`)
  are stand-ins. Faults injected through `Engine` carry whatever exception the caller gives them.
- The last-change timestamp of a contents row is not modelled: it comes from the clock.
- Bounding-box coordinates are Java doubles. They are only copied, so the model keeps their
  64-bit patterns and does no floating-point arithmetic.
- Rows of gpkg_tile_matrix are never written by this layer, so the model tracks only whether that
  table exists.
- Other schema objects (indexes, triggers, views a user made) are not modelled, so CREATE TABLE
  clashes only with user tables and with catalog tables and views.
- Operations.FeatureMetadata: the Java links the caller's GeometryColumns object to the new
  contents row and its SRS in place (GeoPackageImpl.java:293-294), before the descriptor insert.
  When that insert fails, the caller's object keeps pointing at a contents row the cleanup has
  deleted. The model returns a new linked value on success only; the caller's object and that
  stale link are not modelled.
- Only ASCII letters are folded when names are compared, as SQLite does for identifiers. The
  contents rows, descriptor rows and the cascading delete match table names exactly, as a
  comparison of text values does. A delete whose name differs from its table only in case is
  therefore modelled as removing nothing.
- The engine is deterministic: a given call fails the same way each time it is made.
- The names queries of the geometry columns and tile matrix set DAOs have no ORDER BY, so SQL
  fixes no order for them. The model returns one name per row in insertion order. The order in
  `Properties.CreatedFeatureTableListed` and `Properties.CreatedTileTableListed` rests on that
  choice; which names are listed does not.
- When a user table took a catalog table's name, queries and inserts against that name are
  modelled against the catalog's own rows, and the user table's rows are not consulted. Such an
  insert fails as a missing table, and the names query reads the catalog's rows, of which a
  well-formed GeoPackage has none.
- Engine faults may be any exception, including a storage exception at `createTable` or the
  contents DAO's `deleteTable`, which the Java signatures rule out. The claims that depend on
  this are conditioned on `Catalog.ThrowsAsDeclared` rather than the engine type excluding it.
- Thread safety and transactions are not modelled. The layer runs its steps one after another on
  one connection, and the model does the same.
