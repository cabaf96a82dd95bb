/**
 * The global game configuration (core/gameconfig.cpp): one static `GameConfig_t` record behind
 * a getter and two setters. The static record is the state the functions take and return.
 */
module GameConfigs {
  import opened Ints

  /** `GameConfig_t`. */
  datatype GameConfig = GameConfig(width: int32, height: int32, isFullscreen: bool, isBorderless: bool)

  /** The static record before any setter runs: zero-initialised, as every object with static storage is. */
  function InitialGameConfig(): (c: GameConfig)
    ensures c.width == 0 && c.height == 0 && !c.isFullscreen && !c.isBorderless
  {
    GameConfig(0, 0, false, false)
  }

  /** `GetGameConfig`: the stored record, so storing what it answers changes nothing. */
  function GetGameConfig(stored: GameConfig): (r: GameConfig)
    ensures SetGameConfig(stored, r) == stored
    ensures SetGameConfigResolution(stored, r.width, r.height) == stored
  {
    stored
  }

  /** `SetGameConfig`: every field of the stored record is replaced by the argument's. */
  function SetGameConfig(stored: GameConfig, config: GameConfig): (r: GameConfig)
    ensures r.width == config.width && r.height == config.height
    ensures r.isFullscreen == config.isFullscreen && r.isBorderless == config.isBorderless
  {
    config
  }

  /**
   * `SetGameConfigResolution`: stores the width and height exactly as given, zero and negative
   * values included, and keeps the two window flags.
   */
  function SetGameConfigResolution(stored: GameConfig, width: int32, height: int32): (r: GameConfig)
    ensures r.width == width && r.height == height
    ensures r.isFullscreen == stored.isFullscreen && r.isBorderless == stored.isBorderless
  {
    stored.(width := width, height := height)
  }

  /**
   * `GetGameConfig` answers with the record most recently stored: after `SetGameConfig` the whole
   * argument, and after `SetGameConfigResolution` the new size with the flags stored before it.
   * Setting the resolution twice keeps only the second size.
   */
  lemma GetReturnsLastStored(stored: GameConfig, config: GameConfig, w1: int32, h1: int32, w2: int32, h2: int32)
    ensures GetGameConfig(SetGameConfig(stored, config)) == config
    ensures GetGameConfig(SetGameConfigResolution(SetGameConfig(stored, config), w1, h1))
      == GameConfig(w1, h1, config.isFullscreen, config.isBorderless)
    ensures SetGameConfigResolution(SetGameConfigResolution(stored, w1, h1), w2, h2)
      == SetGameConfigResolution(stored, w2, h2)
    ensures SetGameConfig(SetGameConfigResolution(stored, w1, h1), config) == config
  {
  }

  /** The resolution setter does not validate: a negative size and a zero size are both stored. */
  lemma ResolutionUnvalidated(stored: GameConfig)
    ensures GetGameConfig(SetGameConfigResolution(stored, -1, 0)).width == -1
    ensures GetGameConfig(SetGameConfigResolution(stored, -1, 0)).height == 0
  {
  }
}
