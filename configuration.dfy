/**
 * The settings the overlay reads each frame. Range and MergeDistance are
 * whole units here; opacity and font scale only affect drawing.
 */
module Configuration {

  datatype Config = Config(
    enabled: bool,
    range: nat,
    maxObjects: int,
    mergeDistance: nat,
    showPlayers: bool,
    showLocalPlayer: bool,
    showBattleNpcs: bool,
    showEventNpcs: bool,
    showEventObjs: bool,
    showEntityId: bool,
    showDataId: bool,
    showPosition: bool,
    showRotation: bool,
    showDistance: bool,
    showCastInfo: bool,
    showStatusList: bool,
    showHealth: bool)

  /** A freshly created configuration. */
  function DefaultConfig(): (c: Config)
    ensures WithinSliderBounds(c)
    ensures c.enabled && c.range == 30 && c.maxObjects == 10 && c.mergeDistance == 50
  {
    Config(
      enabled := true, range := 30, maxObjects := 10, mergeDistance := 50,
      showPlayers := true, showLocalPlayer := false, showBattleNpcs := true,
      showEventNpcs := false, showEventObjs := false,
      showEntityId := true, showDataId := true, showPosition := true, showRotation := false,
      showDistance := true, showCastInfo := true, showStatusList := true, showHealth := true)
  }

  /** The ranges the settings window's sliders allow. */
  predicate WithinSliderBounds(c: Config) {
    && 5 <= c.range <= 100
    && 1 <= c.maxObjects <= 100
    && 10 <= c.mergeDistance <= 200
  }
}
