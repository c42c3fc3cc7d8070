/**
 * Worked examples on a fresh GeoPackage that holds only its two mandatory catalog tables
 * and two coordinate systems, WGS 84 (EPSG:4326) and Web Mercator (EPSG:3857).
 */
module Scenarios {
  import opened Catalog
  import opened CatalogState
  import opened Operations
  import opened Properties

  const Wgs84 := SpatialReferenceSystem(4326, "WGS 84 Geographic 2D", "EPSG", 4326,
    "GEOGCS[\"WGS 84\"]", None)

  const WebMercator := SpatialReferenceSystem(3857, "WGS 84 / Pseudo-Mercator", "EPSG", 3857,
    "PROJCS[\"WGS 84 / Pseudo-Mercator\"]", None)

  /** A GeoPackage as it is right after creation. */
  const Fresh := Db(map[], map[4326 := Wgs84, 3857 := WebMercator], map[], [], [],
    {GpkgSpatialRefSys, GpkgContents})

  /** An engine where nothing fails and every create script runs one statement. */
  const Reliable := Engine(map[], _ => 1)

  const World := BoundingBox(Double(1), Double(2), Double(3), Double(4))

  const Parks := GeometryColumns("parks", "geom", "POLYGON", 0, 0, 0)

  lemma FreshIsValid()
    ensures Valid(Fresh)
  {
  }

  /** A polygon layer in WGS 84: the table, its descriptor and its listing. */
  lemma CreateParks()
    ensures var o := CreateFeatureTableWithMetadata(Fresh, Parks, World, 4326, Reliable);
      && o.result == Success(Parks.(srsId := 4326))
      && o.db.tables["parks"] == FeatureColumns(Parks)
      && o.db.contents["parks"].dataType == Features
      && GpkgGeometryColumns in o.db.catalog
      && ListFeatureTables(o.db, Reliable) == Success(["parks"])
      && ListTileTables(o.db, Reliable) == Success([])
      && Valid(o.db)
  {
    FreshIsValid();
    FreshFeatureName("parks");
    FeatureSuccessIff(Fresh, Parks, World, 4326, Reliable);
    CreatedFeatureTableListed(Fresh, Parks, World, 4326, Reliable);
    assert TableNames(Fresh.geometryColumns, GeometryColumnsTable) == [];
    assert [] + [Parks.tableName] == ["parks"];
    FeatureKeepsValid(Fresh, Parks, World, 4326, Reliable);
  }

  /** An unknown SRS is reported before anything is created, and nothing is listed. */
  lemma UnknownSrs()
    ensures var o := CreateFeatureTableWithMetadata(Fresh, Parks, World, 999999, Reliable);
      && o == Outcome(Fresh, Failure(GeoPackageException(SrsNotFoundMessage(999999), None)))
      && ListFeatureTables(o.db, Reliable) == Success([])
  {
  }

  /** The SRS id is printed in decimal in the not-found message. */
  lemma SrsNotFoundMessageText()
    ensures SrsNotFoundMessage(999999) == "Spatial Reference System could not be found. SRS ID: 999999"
  {
    assert Digits(9) == "9";
    assert Digits(99) == "99";
    assert Digits(999) == "999";
    assert Digits(9999) == "9999";
    assert Digits(99999) == "99999";
  }

  /** Creating the same feature table twice: the second call fails and changes nothing. */
  lemma CreateParksTwice()
    ensures var first := CreateFeatureTableWithMetadata(Fresh, Parks, World, 4326, Reliable);
      var second := CreateFeatureTableWithMetadata(first.db, Parks, World, 4326, Reliable);
      second == Outcome(first.db, Failure(TableAlreadyExists("parks")))
  {
    CreateParks();
    var first := CreateFeatureTableWithMetadata(Fresh, Parks, World, 4326, Reliable);
    FeatureCreateTableFailureKeepsState(first.db, Parks, World, 4326, Reliable);
  }

  /** A name of neither the catalog tables of Fresh nor gpkg_geometry_columns is free for a feature table. */
  lemma FreshFeatureName(name: string)
    requires |name| !in {|TableName(GpkgSpatialRefSys)|, |TableName(GpkgContents)|, |TableName(GpkgGeometryColumns)|}
    ensures !NameTaken(Fresh, name)
    ensures !SameName(name, TableName(GpkgGeometryColumns))
  {
    LengthsTellNamesApart(name, TableName(GpkgGeometryColumns));
    forall kind | kind in Fresh.catalog
      ensures !SameName(TableName(kind), name)
    {
      LengthsTellNamesApart(TableName(kind), name);
    }
  }

  /** A name of neither the catalog tables of Fresh nor the tile ones is free for a tile table. */
  lemma FreshTileName(name: string)
    requires |name| !in {|TableName(GpkgSpatialRefSys)|, |TableName(GpkgContents)|,
                         |TableName(GpkgTileMatrixSet)|, |TableName(GpkgTileMatrix)|}
    ensures !NameTaken(Fresh, name)
    ensures !SameName(name, TableName(GpkgTileMatrixSet)) && !SameName(name, TableName(GpkgTileMatrix))
  {
    LengthsTellNamesApart(name, TableName(GpkgTileMatrixSet));
    LengthsTellNamesApart(name, TableName(GpkgTileMatrix));
    forall kind | kind in Fresh.catalog
      ensures !SameName(TableName(kind), name)
    {
      LengthsTellNamesApart(TableName(kind), name);
    }
  }

  /** Table names are matched regardless of ASCII case: "PARKS" clashes with the existing "parks". */
  lemma UpperCaseNameClashes()
    ensures var first := CreateFeatureTableWithMetadata(Fresh, Parks, World, 4326, Reliable);
      var second := CreateFeatureTableWithMetadata(first.db, Parks.(tableName := "PARKS"), World, 4326, Reliable);
      second == Outcome(first.db, Failure(TableAlreadyExists("PARKS")))
  {
    CreateParks();
    var first := CreateFeatureTableWithMetadata(Fresh, Parks, World, 4326, Reliable);
    assert Folded("PARKS") == "parks";
    assert "parks" in first.db.tables && SameName("parks", "PARKS");
    FeatureCreateTableFailureKeepsState(first.db, Parks.(tableName := "PARKS"), World, 4326, Reliable);
  }

  /** Likewise "GPKG_CONTENTS" clashes with the catalog table gpkg_contents. */
  lemma UpperCaseCatalogNameClashes()
    ensures var o := CreateFeatureTableWithMetadata(Fresh, Parks.(tableName := "GPKG_CONTENTS"), World, 4326, Reliable);
      o == Outcome(Fresh.(catalog := Fresh.catalog + {GpkgGeometryColumns}), Failure(TableAlreadyExists("GPKG_CONTENTS")))
  {
    assert Folded("GPKG_CONTENTS") == TableName(GpkgContents);
    assert GpkgContents in Fresh.catalog && SameName(TableName(GpkgContents), "GPKG_CONTENTS");
    FeatureCreateTableFailureKeepsState(Fresh, Parks.(tableName := "GPKG_CONTENTS"), World, 4326, Reliable);
  }

  /** A tile pyramid whose contents use Web Mercator and whose matrix set uses WGS 84. */
  lemma CreateBasemap()
    ensures var o := CreateTileTableWithMetadata(Fresh, "basemap", World, 3857, World, 4326, Reliable);
      && o.result.Success?
      && o.db.contents["basemap"].srsId == 3857
      && o.result.value.srsId == 4326
      && o.db.tables["basemap"] == RequiredTileColumns()
      && {GpkgTileMatrixSet, GpkgTileMatrix} <= o.db.catalog
      && ListTileTables(o.db, Reliable) == Success(["basemap"])
  {
    FreshIsValid();
    FreshTileName("basemap");
    TileSuccessIff(Fresh, "basemap", World, 3857, World, 4326, Reliable);
    TileSrsIndependent(Fresh, "basemap", World, 3857, World, 4326, Reliable);
    CreatedTileTableListed(Fresh, "basemap", World, 3857, World, 4326, Reliable);
    assert TableNames(Fresh.tileMatrixSets, TileMatrixSetTable) == [];
    assert [] + ["basemap"] == ["basemap"];
  }

  /**
   * A feature table cannot take the name of a catalog table: not of one that already
   * exists, nor of gpkg_geometry_columns, which the workflow provisions just before.
   */
  lemma CatalogNamesRejected()
    ensures var o := CreateFeatureTableWithMetadata(Fresh, Parks.(tableName := "gpkg_contents"), World, 4326, Reliable);
      o == Outcome(Fresh.(catalog := Fresh.catalog + {GpkgGeometryColumns}), Failure(TableAlreadyExists("gpkg_contents")))
    ensures var o := CreateFeatureTableWithMetadata(Fresh, Parks.(tableName := "gpkg_geometry_columns"), World, 4326, Reliable);
      o == Outcome(Fresh.(catalog := Fresh.catalog + {GpkgGeometryColumns}), Failure(TableAlreadyExists("gpkg_geometry_columns")))
  {
    assert TableName(GpkgContents) == "gpkg_contents";
    assert TableName(GpkgGeometryColumns) == "gpkg_geometry_columns";
  }

  /** A tile table may take the name gpkg_geometry_columns while that table is absent. */
  lemma TileTableTakesCatalogName()
    ensures var tiles := CreateTileTableWithMetadata(Fresh, "gpkg_geometry_columns", World, 3857, World, 4326, Reliable);
      && tiles.result.Success?
      && TableName(GpkgGeometryColumns) in tiles.db.tables
  {
    FreshIsValid();
    FreshTileName("gpkg_geometry_columns");
    TileSuccessIff(Fresh, "gpkg_geometry_columns", World, 3857, World, 4326, Reliable);
  }

  /**
   * After that, the existence check finds the tile table by name, so gpkg_geometry_columns
   * is never created, and a feature workflow fails and is cleaned up.
   */
  lemma UserTableShadowsCatalogTable()
    ensures var tiles := CreateTileTableWithMetadata(Fresh, "gpkg_geometry_columns", World, 3857, World, 4326, Reliable);
      var features := CreateFeatureTableWithMetadata(tiles.db, Parks, World, 4326, Reliable);
      && EnsureTable(tiles.db, GpkgGeometryColumns, Reliable) == Outcome(tiles.db, Success(false))
      && features.result.Failure?
      && features.db == tiles.db
  {
    TileTableTakesCatalogName();
    FreshIsValid();
    TileKeepsValid(Fresh, "gpkg_geometry_columns", World, 3857, World, 4326, Reliable);
    var tiles := CreateTileTableWithMetadata(Fresh, "gpkg_geometry_columns", World, 3857, World, 4326, Reliable);
    ShadowedGeometryColumnsBlocksFeatures(tiles.db, Parks, World, 4326, Reliable);
  }

  const DiskFull := SQLException("database or disk is full")

  /** The descriptor insert fails: the table is dropped again and the error names it. */
  lemma DescriptorInsertFails()
    ensures var engine := Reliable.(faults := map[RowInsert(GpkgGeometryColumns, "parks") := DiskFull]);
      var o := CreateFeatureTableWithMetadata(Fresh, Parks, World, 4326, engine);
      && o.result == Failure(GeoPackageException(MetadataFailedMessage("parks"), Some(DiskFull)))
      && o.db == Fresh.(catalog := Fresh.catalog + {GpkgGeometryColumns})
  {
    var engine := Reliable.(faults := map[RowInsert(GpkgGeometryColumns, "parks") := DiskFull]);
    FreshIsValid();
    FreshFeatureName("parks");
    FeatureInsertFaultRethrown(Fresh, Parks, World, 4326, engine, DiskFull);
    FeatureFailureRestores(Fresh, Parks, World, 4326, engine);
  }

  /** An unchecked exception from the contents insert reaches the caller unchanged. */
  lemma ContentsInsertThrowsUnchecked()
    ensures var thrown := RuntimeException("illegal state");
      var engine := Reliable.(faults := map[RowInsert(GpkgContents, "basemap") := thrown]);
      var o := CreateTileTableWithMetadata(Fresh, "basemap", World, 3857, World, 4326, engine);
      && o.result == Failure(thrown)
      && "basemap" !in o.db.tables
  {
    var thrown := RuntimeException("illegal state");
    var engine := Reliable.(faults := map[RowInsert(GpkgContents, "basemap") := thrown]);
    FreshIsValid();
    FreshTileName("basemap");
    TileInsertFaultRethrown(Fresh, "basemap", World, 3857, World, 4326, engine, thrown);
    TileFailureRestores(Fresh, "basemap", World, 3857, World, 4326, engine);
  }

  const Locked := RuntimeException("database is locked")

  /** An engine where the descriptor insert of "parks" and then its cleanup delete fail. */
  const CleanupFails := Reliable.(faults := map[
    RowInsert(GpkgGeometryColumns, "parks") := DiskFull,
    ContentsDelete("parks") := Locked])

  /** When the cleanup delete fails too, the table and its contents row stay behind. */
  lemma CleanupFailsLeavesOrphan()
    ensures var o := CreateFeatureTableWithMetadata(Fresh, Parks, World, 4326, CleanupFails);
      && o.result == Failure(GeoPackageException(MetadataFailedMessage("parks"), Some(DiskFull)))
      && "parks" in o.db.tables && "parks" in o.db.contents
      && o.db.geometryColumns == []
  {
    FreshIsValid();
    FreshFeatureName("parks");
    FeatureInsertFaultRethrown(Fresh, Parks, World, 4326, CleanupFails, DiskFull);
  }

  /** The orphan has no descriptor row, so the feature listing does not name it. */
  lemma OrphanNotListed()
    ensures var o := CreateFeatureTableWithMetadata(Fresh, Parks, World, 4326, CleanupFails);
      ListFeatureTables(o.db, CleanupFails) == Success([])
  {
    CleanupFailsLeavesOrphan();
  }

  /** The optional SQL/MM view is never created for the caller: asking for it fails. */
  lemma SqlMmViewMissing()
    ensures VerifyTableExists(Fresh, SqlMmSpatialRefSys, Reliable)
      == Failure(GeoPackageException(MissingTableMessage(SqlMmSpatialRefSys), None))
  {
  }

  /** gpkg_extensions is created by the first call only. */
  lemma ExtensionsCreatedOnce()
    ensures var first := EnsureTable(Fresh, GpkgExtensions, Reliable);
      && first.result == Success(true)
      && EnsureTable(first.db, GpkgExtensions, Reliable) == Outcome(first.db, Success(false))
  {
    EnsureTableIdempotent(Fresh, GpkgExtensions, Reliable);
  }
}
