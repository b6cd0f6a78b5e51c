/**
 * The persisted configuration record (`SaveManagerConfig.json`). Its only key
 * is `current_profile`, the name of the profile whose data sits in the
 * unsuffixed save file. JSON text itself is not modelled: a present file is
 * either a decoded record or undecodable.
 */
module Store {
  import opened Wrappers

  type Record = map<string, string>

  const CurrentKey: string := "current_profile"

  datatype ConfigFile = Absent | Present(decoded: Option<Record>)

  datatype LoadError = DecodeFailed

  /**
   * Loading at start-up: a missing file is a first run and loads as the empty
   * record; a file that cannot be decoded is fatal (the program exits with
   * status 1).
   */
  function Load(config: ConfigFile): (r: Result<Record, LoadError>)
    ensures r.Failure? <==> config == Present(None)
    ensures config.Absent? ==> r.Success? && r.value == map[] && CurrentKey !in r.value
    ensures config.Present? && r.Success? ==> config.decoded == Some(r.value)
  {
    match config
    case Absent => Success(map[])
    case Present(Some(record)) => Success(record)
    case Present(None) => Failure(DecodeFailed)
  }
}
