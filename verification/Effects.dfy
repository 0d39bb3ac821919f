/** What an action list does to the sensor table and the settings. */
module Effects {
  import opened Codec
  import opened CommandPath
  import opened CommandTheorems
  import S = SensorTable

  function SensorIn(a: Action, now: int): seq<S.SensorEvent> {
    match a
    case Sensor(b0, b1, b2, key, addr8) => [S.Seen(S.Address(b0, b1, b2), addr8, key, now)]
    case ClearSensors => [S.Cleared]
    case _ => []
  }

  function SensorLog(acts: seq<Action>, now: int): seq<S.SensorEvent> {
    if acts == [] then [] else SensorIn(acts[0], now) + SensorLog(acts[1..], now)
  }

  function Configured(cfg: Config, a: Action): Config {
    match a
    case SetRfToPl(houses) => cfg.(rfToPl := houses)
    case SetRfToRf(value) => cfg.(rfToRf := value)
    case _ => cfg
  }

  function ConfiguredBy(cfg: Config, acts: seq<Action>): Config
    decreases |acts|
  {
    if acts == [] then cfg else ConfiguredBy(Configured(cfg, acts[0]), acts[1..])
  }

  /** The sensor table and the settings depend on the changes in the list alone. */
  lemma {:induction false} ChangesDecide(acts: seq<Action>, cfg: Config, now: int)
    ensures SensorLog(acts, now) == SensorLog(Changes(acts), now)
    ensures ConfiguredBy(cfg, acts) == ConfiguredBy(cfg, Changes(acts))
    decreases |acts|
  {
    if acts != [] {
      ChangesDecide(acts[1..], Configured(cfg, acts[0]), now);
      if IsChange(acts[0]) {
        assert Changes(acts)[0] == acts[0] && Changes(acts)[1..] == Changes(acts[1..]);
      } else {
        assert Changes(acts) == Changes(acts[1..]);
      }
    }
  }

  lemma {:induction false} SettingsKeepTheModel(cfg: Config, acts: seq<Action>)
    ensures ConfiguredBy(cfg, acts).cm19a == cfg.cm19a
    decreases |acts|
  {
    if acts != [] { SettingsKeepTheModel(Configured(cfg, acts[0]), acts[1..]); }
  }
}
