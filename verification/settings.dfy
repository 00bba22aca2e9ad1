/** The two persisted settings of `EyeRestApp` (main.py:112-113, 119-150). The JSON file is
    modelled as the key-to-integer map it decodes to; reading and writing the file is not. */
module Settings {
  import opened Wrappers

  const WorkKey: string := "work_interval_sec"
  const IdleKey: string := "idle_threshold_sec"

  /** Constructor defaults: twenty minutes of work, five minutes of idleness. */
  const DefaultWorkInterval: int := 20 * 60
  const DefaultIdleThreshold: int := 5 * 60

  /** Both durations in seconds. */
  datatype Config = Config(workInterval: int, idleThreshold: int)

  const Defaults: Config := Config(DefaultWorkInterval, DefaultIdleThreshold)

  /** The decoded contents of `settings.json`. */
  type SettingsFile = map<string, int>

  /** Python's `dict.get(key, default)`. */
  function Lookup(file: SettingsFile, key: string, default: int): (v: int)
    ensures key in file ==> v == file[key]
    ensures key !in file ==> v == default
  {
    if key in file then file[key] else default
  }

  /** `load_settings`: `None` stands for a file that does not exist, could not be read or is
      not valid JSON, which leaves the current values alone; otherwise each key present
      overrides its setting and each key absent keeps the current value. */
  function Load(current: Config, file: Option<SettingsFile>): (c: Config)
    ensures file.None? ==> c == current
    ensures file.Some? && WorkKey in file.value ==> c.workInterval == file.value[WorkKey]
    ensures file.Some? && WorkKey !in file.value ==> c.workInterval == current.workInterval
    ensures file.Some? && IdleKey in file.value ==> c.idleThreshold == file.value[IdleKey]
    ensures file.Some? && IdleKey !in file.value ==> c.idleThreshold == current.idleThreshold
  {
    match file
    case None => current
    case Some(f) =>
      Config(Lookup(f, WorkKey, current.workInterval), Lookup(f, IdleKey, current.idleThreshold))
  }

  /** `save_settings`: the file holds exactly the two keys with the current values. */
  function Save(c: Config): (file: SettingsFile)
    ensures file.Keys == {WorkKey, IdleKey}
    ensures file[WorkKey] == c.workInterval && file[IdleKey] == c.idleThreshold
  {
    map[WorkKey := c.workInterval, IdleKey := c.idleThreshold]
  }

  /** Saving and then loading gives back the saved values, whatever was loaded over. */
  lemma SaveLoadRoundTrip(c: Config, before: Config)
    ensures Load(before, Some(Save(c))) == c
  {
    assert WorkKey != IdleKey by {
      assert WorkKey[0] != IdleKey[0];
    }
  }

  /** Loading the same file twice changes nothing the first load did not. */
  lemma LoadIdempotent(current: Config, file: Option<SettingsFile>)
    ensures Load(Load(current, file), file) == Load(current, file)
  {
  }

  /** A file holding neither key, like a missing file, keeps the current settings. */
  lemma LoadWithoutKeys(current: Config, file: SettingsFile)
    requires WorkKey !in file && IdleKey !in file
    ensures Load(current, Some(file)) == current
  {
  }

  /** At start-up a missing key falls back to the constructor default. */
  lemma StartupDefaults(file: Option<SettingsFile>)
    ensures var c := Load(Defaults, file);
      && (file.None? || WorkKey !in file.value ==> c.workInterval == 1200)
      && (file.None? || IdleKey !in file.value ==> c.idleThreshold == 300)
  {
  }

  /** Writing 900 and 120 seconds and reading them back yields 900 and 120. */
  lemma SaveLoadExample()
    ensures Load(Defaults, Some(Save(Config(900, 120)))) == Config(900, 120)
  {
    SaveLoadRoundTrip(Config(900, 120), Defaults);
  }
}
