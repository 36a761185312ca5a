/** The viewer's settings (src/GlobalConfig.ts). */
module Config {
  import opened Tiles

  /** The settings object. The tile set is the only field the core changes
      after start-up (App.RefreshTiles), and tiles read it only when they are
      constructed, so each tile can keep a copy. */
  datatype GlobalConfig = GlobalConfig(
    xyzTileSet: string,
    xyzTileZoomLevel: Zoom,
    farPlaneDistance: real,
    showMeshProperties: bool,
    cameraForwardSpeed: real,
    cameraLateralSpeed: real,
    offsetX: real,
    offsetY: real,
    offsetSet: bool,
    initialLatitude: real,
    initialLongitude: real)
}
