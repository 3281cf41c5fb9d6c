/** The stored display configuration (display/displayconf.go), as values. */
module DisplayConfig {
  import opened Ints

  datatype Option<T> = None | Some(value: T)

  datatype MonitorConfig = MonitorConfig(
    uuid: string, name: string, enabled: bool, x: int16, y: int16, width: uint16, height: uint16,
    rotation: bv16, reflect: bv16, refreshRate: real, brightness: real, primary: bool)

  datatype ModeConfig = ModeConfig(monitors: seq<MonitorConfig>)

  /** Pointers that may be nil are options. */
  datatype ScreenConfig = ScreenConfig(
    mirror: Option<ModeConfig>, extend: Option<ModeConfig>, single: Option<ModeConfig>,
    onlyOneMap: map<string, Option<ModeConfig>>, onlyOneUuid: string)
}
